/**
  The form-validation routine of app/utils/Utility.ts. A request carries the submitted
  values, the order in which fields are checked, the format of each field and the error map
  currently shown. The React setter `setErrorMessage` is modelled as an output: every routine
  returns, besides its verdict, the sequence of maps it hands to the setter, in call order.
 */
module Validation {
  import opened Wrappers
  import Text
  import opened Patterns

  type ErrorMap = map<string, string>
  type FormData = map<string, string>

  /** `FieldFormat` of types/common.ts, with the fields the routine reads. */
  datatype FieldFormat = FieldFormat(labelText: string, kind: string, required: bool)

  type FormFormat = map<string, FieldFormat>

  /** `ValidationRequestType` without its setter. */
  datatype Request = Request(
    formData: FormData,
    formFieldOrder: seq<string>,
    formFormat: FormFormat,
    errorMessage: ErrorMap)

  const EmailKind := "email"
  const TelKind := "tel"
  const EmailOrTelKind := "email | tel"

  const InvalidEmailMessage := "Please enter a valid email address."
  const InvalidPhoneMessage := "Please enter a valid phone number."
  const InvalidEmailOrPhoneMessage := "Please enter a valid email address or phone number."
  const PasswordMismatchMessage := "Passwords do not match."
  const PasswordKey := "password"
  const ConfirmPasswordKey := "confirmPassword"

  function RequiredMessage(labelText: string): string
  {
    labelText + " is required."
  }

  /** `isNotEmpty`: some character of the text is not whitespace. */
  function IsNotEmpty(text: string): (b: bool)
    ensures b <==> exists k | 0 <= k < |text| :: !Text.IsWhitespace(text[k])
  {
    |Text.Trim(text)| > 0
  }

  /** Every field that is checked has a format and a value; the source reads
      `formFormat[field].required` and `formData[field].trim()` unguarded. */
  predicate WellFormed(req: Request)
  {
    forall field | field in req.formFieldOrder :: field in req.formFormat && field in req.formData
  }

  /** What one pass of the `forEach` body leaves for one field. */
  datatype FieldCheck = FieldCheck(error: string, failures: nat)

  /** The body of the `forEach` for one field: the four `if`s in turn, each overwriting the
      error and possibly counting a failure. */
  function CheckField(format: FieldFormat, value: string): (r: FieldCheck)
    // a blank value: only the required rule applies, no type check runs
    ensures !IsNotEmpty(value) ==>
      r == if format.required then FieldCheck(RequiredMessage(format.labelText), 1) else FieldCheck("", 0)
    ensures IsNotEmpty(value) && format.kind == EmailKind ==>
      r == if ValidEmail(value) then FieldCheck("", 0) else FieldCheck(InvalidEmailMessage, 1)
    ensures IsNotEmpty(value) && format.kind == TelKind ==>
      r == if ValidPhoneNumber(value) then FieldCheck("", 0) else FieldCheck(InvalidPhoneMessage, 1)
    // the combined kind shows a message but never counts a failure
    ensures IsNotEmpty(value) && format.kind == EmailOrTelKind ==>
      r == if ValidPhoneNumber(value) || ValidEmail(value) then FieldCheck("", 0)
           else FieldCheck(InvalidEmailOrPhoneMessage, 0)
    ensures IsNotEmpty(value) && format.kind !in {EmailKind, TelKind, EmailOrTelKind} ==>
      r == FieldCheck("", 0)
  {
    var present := IsNotEmpty(value);
    var afterRequired :=
      if format.required && !present then FieldCheck(RequiredMessage(format.labelText), 1)
      else FieldCheck("", 0);
    var afterEmail :=
      if format.kind == EmailKind && present then
        if !ValidEmail(value) then FieldCheck(InvalidEmailMessage, afterRequired.failures + 1)
        else FieldCheck("", afterRequired.failures)
      else afterRequired;
    var afterTel :=
      if format.kind == TelKind && present then
        if !ValidPhoneNumber(value) then FieldCheck(InvalidPhoneMessage, afterEmail.failures + 1)
        else FieldCheck("", afterEmail.failures)
      else afterEmail;
    if format.kind == EmailOrTelKind && present then
      if !ValidPhoneNumber(value) && !ValidEmail(value) then
        FieldCheck(InvalidEmailOrPhoneMessage, afterTel.failures)
      else FieldCheck("", afterTel.failures)
    else afterTel
  }

  /** The value `count` reaches after the fields of `fields` have been checked. */
  function FailureCount(formFormat: FormFormat, formData: FormData, fields: seq<string>): nat
    requires forall f | f in fields :: f in formFormat && f in formData
  {
    if fields == [] then 0
    else
      var last := fields[|fields| - 1];
      FailureCount(formFormat, formData, fields[..|fields| - 1])
        + CheckField(formFormat[last], formData[last]).failures
  }

  /** The map `newErrors` holds after the fields of `fields` have been checked, in order: a
      copy of `errorMessage` whose entry of every checked field is overwritten, and whose
      other entries are kept. */
  function OverwriteFields(req: Request, fields: seq<string>): (m: ErrorMap)
    requires forall f | f in fields :: f in req.formFormat && f in req.formData
    ensures forall k :: k in m <==> k in req.errorMessage || k in fields
    ensures forall k | k in fields :: m[k] == CheckField(req.formFormat[k], req.formData[k]).error
    ensures forall k | k in req.errorMessage && k !in fields :: m[k] == req.errorMessage[k]
  {
    if fields == [] then req.errorMessage
    else
      var init, last := fields[..|fields| - 1], fields[|fields| - 1];
      assert forall k | k in fields :: k in init || k == last;
      OverwriteFields(req, init)[last := CheckField(req.formFormat[last], req.formData[last]).error]
  }

  /** The map `validateFields` publishes. */
  function FieldErrors(req: Request): ErrorMap
    requires WellFormed(req)
  {
    OverwriteFields(req, req.formFieldOrder)
  }

  /** The verdict of `validateFields`: `count === 0`. */
  predicate FieldsPass(req: Request)
    requires WellFormed(req)
  {
    FailureCount(req.formFormat, req.formData, req.formFieldOrder) == 0
  }

  /** The callback `validateFields` hands to `forEach`: it overwrites the field's entry of
      `newErrors` rule by rule and bumps `count` once per failed rule. */
  method CheckFieldInto(newErrors: ErrorMap, count: nat, field: string, format: FieldFormat, value: string)
    returns (errors': ErrorMap, count': nat)
    ensures errors' == newErrors[field := CheckField(format, value).error]
    ensures count' == count + CheckField(format, value).failures
  {
    var present := IsNotEmpty(value);
    var email, phone := ValidEmail(value), ValidPhoneNumber(value);
    errors', count' := newErrors, count;
    if format.required && !present {
      errors' := errors'[field := RequiredMessage(format.labelText)];
      count' := count' + 1;
    } else {
      errors' := errors'[field := ""];
    }
    // every later rule overwrites the same entry again
    ghost var shown := errors'[field];
    assert errors' == newErrors[field := shown];
    if format.kind == EmailKind && present {
      if !email {
        errors' := errors'[field := InvalidEmailMessage];
        count' := count' + 1;
      } else {
        errors' := errors'[field := ""];
      }
      OverwriteTwice(newErrors, field, shown, errors'[field]);
      shown := errors'[field];
    }
    if format.kind == TelKind && present {
      if !phone {
        errors' := errors'[field := InvalidPhoneMessage];
        count' := count' + 1;
      } else {
        errors' := errors'[field := ""];
      }
      OverwriteTwice(newErrors, field, shown, errors'[field]);
      shown := errors'[field];
    }
    if format.kind == EmailOrTelKind && present {
      if !phone && !email {
        errors' := errors'[field := InvalidEmailOrPhoneMessage];
      } else {
        errors' := errors'[field := ""];
      }
      OverwriteTwice(newErrors, field, shown, errors'[field]);
      shown := errors'[field];
    }
  }

  /** Writing an entry twice leaves only the second write. */
  lemma OverwriteTwice(m: ErrorMap, key: string, first: string, second: string)
    ensures m[key := first][key := second] == m[key := second]
  {
  }

  /** `validateFields`: copy the shown map, run the `forEach`, publish, and pass iff nothing
      was counted. */
  method ValidateFields(req: Request) returns (valid: bool, published: seq<ErrorMap>)
    requires WellFormed(req)
    ensures published == [FieldErrors(req)]
    ensures valid <==> forall f | f in req.formFieldOrder ::
      CheckField(req.formFormat[f], req.formData[f]).failures == 0
  {
    var newErrors, count := CheckAllFields(req);
    published := [newErrors];
    valid := count == 0;
    CountZeroIffNoFailure(req.formFormat, req.formData, req.formFieldOrder);
  }

  /** The `forEach` of `validateFields` over the field order, starting from a copy of the
      shown map and a zero count. */
  method CheckAllFields(req: Request) returns (newErrors: ErrorMap, count: nat)
    requires WellFormed(req)
    ensures newErrors == FieldErrors(req)
    ensures count == FailureCount(req.formFormat, req.formData, req.formFieldOrder)
  {
    count := 0;
    newErrors := req.errorMessage;
    var order := req.formFieldOrder;
    var i := 0;
    while i < |order|
      invariant 0 <= i <= |order|
      invariant count == FailureCount(req.formFormat, req.formData, order[..i])
      invariant newErrors == OverwriteFields(req, order[..i])
    {
      var field := order[i];
      assert field in order;
      newErrors, count := CheckFieldInto(newErrors, count, field, req.formFormat[field], req.formData[field]);
      assert order[..i + 1] == order[..i] + [field];
      CheckOneMore(req, order[..i], field);
      i := i + 1;
    }
    assert order[..i] == order;
  }

  /** Checking one more field adds its failures to the count and overwrites its entry. */
  lemma CheckOneMore(req: Request, fields: seq<string>, field: string)
    requires forall f | f in fields + [field] :: f in req.formFormat && f in req.formData
    ensures FailureCount(req.formFormat, req.formData, fields + [field])
         == FailureCount(req.formFormat, req.formData, fields) + CheckField(req.formFormat[field], req.formData[field]).failures
    ensures OverwriteFields(req, fields + [field])
         == OverwriteFields(req, fields)[field := CheckField(req.formFormat[field], req.formData[field]).error]
  {
    assert (fields + [field])[..|fields|] == fields;
  }

  /** `count` ends at zero exactly when no field of the order fails on its own. */
  lemma {:induction false} CountZeroIffNoFailure(formFormat: FormFormat, formData: FormData, fields: seq<string>)
    requires forall f | f in fields :: f in formFormat && f in formData
    ensures FailureCount(formFormat, formData, fields) == 0 <==>
      forall f | f in fields :: CheckField(formFormat[f], formData[f]).failures == 0
  {
    if fields != [] {
      var init := fields[..|fields| - 1];
      CountZeroIffNoFailure(formFormat, formData, init);
      assert forall f | f in fields :: f in init || f == fields[|fields| - 1];
    }
  }

  /** A shown message tells the verdict: the verdict is true exactly when every checked
      field shows either no message or the combined email-or-phone message, the one message
      that is not counted. */
  lemma VerdictMatchesShownErrors(req: Request)
    requires WellFormed(req)
    ensures FieldsPass(req) <==> forall f | f in req.formFieldOrder ::
      FieldErrors(req)[f] == "" || FieldErrors(req)[f] == InvalidEmailOrPhoneMessage
  {
    CountZeroIffNoFailure(req.formFormat, req.formData, req.formFieldOrder);
    forall f | f in req.formFieldOrder
      ensures CheckField(req.formFormat[f], req.formData[f]).failures == 0 <==>
        FieldErrors(req)[f] == "" || FieldErrors(req)[f] == InvalidEmailOrPhoneMessage
    {
      CountedMessageIsShown(req.formFormat[f], req.formData[f]);
    }
  }

  /** A field counts a failure exactly when it shows one of the three counted messages. */
  lemma CountedMessageIsShown(format: FieldFormat, value: string)
    ensures CheckField(format, value).failures == 0 <==>
      CheckField(format, value).error == "" || CheckField(format, value).error == InvalidEmailOrPhoneMessage
  {
    var m := RequiredMessage(format.labelText);
    assert m[|m| - 2] == 'd';
    assert InvalidEmailOrPhoneMessage[|InvalidEmailOrPhoneMessage| - 2] == 'r';
  }

  // ---------------------------------------------------------------------------------------
  // Confirm password and the two entry points
  // ---------------------------------------------------------------------------------------

  /** `formData[key]`, with JavaScript's `undefined` for a missing key. */
  function Lookup(formData: FormData, key: string): Option<string>
  {
    if key in formData then Some(formData[key]) else None
  }

  /** `password !== confirmPassword`: exact comparison, no trimming, and two missing values
      are equal (`undefined === undefined`). */
  predicate PasswordsMatch(formData: FormData)
  {
    Lookup(formData, PasswordKey) == Lookup(formData, ConfirmPasswordKey)
  }

  /** The map `validConfirmPassword` publishes when it starts from `base`. */
  function ConfirmPasswordErrors(formData: FormData, base: ErrorMap): (m: ErrorMap)
    ensures m.Keys == base.Keys + {ConfirmPasswordKey}
    ensures m[ConfirmPasswordKey] == PasswordMismatchMessage <==> !PasswordsMatch(formData)
    ensures m[ConfirmPasswordKey] == "" <==> PasswordsMatch(formData)
    ensures forall k | k in base && k != ConfirmPasswordKey :: m[k] == base[k]
  {
    base[ConfirmPasswordKey := if !PasswordsMatch(formData) then PasswordMismatchMessage else ""]
  }

  /** `validConfirmPassword`: starts from the request's own `errorMessage`. */
  method ValidConfirmPassword(req: Request) returns (valid: bool, published: seq<ErrorMap>)
    ensures valid <==> PasswordsMatch(req.formData)
    ensures published == [ConfirmPasswordErrors(req.formData, req.errorMessage)]
  {
    var count := 0;
    var newErrors := req.errorMessage;
    if Lookup(req.formData, PasswordKey) != Lookup(req.formData, ConfirmPasswordKey) {
      newErrors := newErrors[ConfirmPasswordKey := PasswordMismatchMessage];
      count := count + 1;
    } else {
      newErrors := newErrors[ConfirmPasswordKey := ""];
    }
    published := [newErrors];
    valid := count == 0;
  }

  /** `validateLoginForm`. */
  method ValidateLoginForm(req: Request) returns (valid: bool, published: seq<ErrorMap>)
    requires WellFormed(req)
    ensures published == [FieldErrors(req)]
    ensures valid <==> FieldsPass(req)
  {
    valid, published := ValidateFields(req);
    CountZeroIffNoFailure(req.formFormat, req.formData, req.formFieldOrder);
  }

  /** `validateSignUpForm`: the password check runs only after the field pass succeeded, and
      then publishes a second map, built from the request's original `errorMessage`. */
  method ValidateSignUpForm(req: Request) returns (valid: bool, published: seq<ErrorMap>)
    requires WellFormed(req)
    ensures valid <==> FieldsPass(req) && PasswordsMatch(req.formData)
    ensures published ==
      if FieldsPass(req) then [FieldErrors(req), ConfirmPasswordErrors(req.formData, req.errorMessage)]
      else [FieldErrors(req)]
  {
    CountZeroIffNoFailure(req.formFormat, req.formData, req.formFieldOrder);
    var fieldsValid, fieldsPublished := ValidateFields(req);
    if !fieldsValid {
      return false, fieldsPublished;
    }
    var confirmValid, confirmPublished := ValidConfirmPassword(req);
    valid := confirmValid;
    published := fieldsPublished + confirmPublished;
  }

  /** The error map React keeps is the last one handed to the setter. On the sign-up path
      that is the confirm-password map, which is built from the errors shown BEFORE this
      submit: a message from an earlier failed submit survives a passing field check. */
  lemma SignUpKeepsStaleErrors()
    ensures var req := Request(
              map["userName" := "ada", PasswordKey := "pw", ConfirmPasswordKey := "pw"],
              ["userName"],
              map["userName" := FieldFormat("User Name", "text", true)],
              map["userName" := "User Name is required."]);
            && WellFormed(req)
            && FieldsPass(req)
            && PasswordsMatch(req.formData)
            && FieldErrors(req)["userName"] == ""
            && ConfirmPasswordErrors(req.formData, req.errorMessage)["userName"] == "User Name is required."
  {
    var req := Request(
      map["userName" := "ada", PasswordKey := "pw", ConfirmPasswordKey := "pw"],
      ["userName"],
      map["userName" := FieldFormat("User Name", "text", true)],
      map["userName" := "User Name is required."]);
    FilledUserNamePasses();
    assert req.formFieldOrder[..0] == [];
    assert PasswordKey != "userName" && ConfirmPasswordKey != "userName";
  }

  lemma FilledUserNamePasses()
    ensures CheckField(FieldFormat("User Name", "text", true), "ada") == FieldCheck("", 0)
  {
    assert IsNotEmpty("ada") by {
      assert !Text.IsWhitespace("ada"[0]);
    }
    assert "text" !in {EmailKind, TelKind, EmailOrTelKind};
  }

  /** `validateSignUpForm` with the password check started from the map the field pass
      produced, so that what is shown at the end is this submit's verdict on every field. */
  method ValidateSignUpFormFixed(req: Request) returns (valid: bool, published: seq<ErrorMap>)
    requires WellFormed(req)
    ensures valid <==> FieldsPass(req) && PasswordsMatch(req.formData)
    ensures published ==
      if FieldsPass(req) then [FieldErrors(req), ConfirmPasswordErrors(req.formData, FieldErrors(req))]
      else [FieldErrors(req)]
    ensures forall f | f in req.formFieldOrder && f != ConfirmPasswordKey ::
      published[|published| - 1][f] == CheckField(req.formFormat[f], req.formData[f]).error
  {
    CountZeroIffNoFailure(req.formFormat, req.formData, req.formFieldOrder);
    var fieldsValid, fieldsPublished := ValidateFields(req);
    if !fieldsValid {
      return false, fieldsPublished;
    }
    var confirmValid, confirmPublished := ValidConfirmPassword(req.(errorMessage := fieldsPublished[0]));
    valid := confirmValid;
    published := fieldsPublished + confirmPublished;
  }

  // ---------------------------------------------------------------------------------------
  // The login form's configuration (app/components/login/LoginForm.tsx) as an example
  // ---------------------------------------------------------------------------------------

  const LoginFormFormat: FormFormat := map[
    "userName" := FieldFormat("User Name", "text", true),
    PasswordKey := FieldFormat("Password", "password", true)]

  const LoginFieldOrder: seq<string> := ["userName", PasswordKey]

  /** A login submit with a whitespace-only user name, over an error map that still shows
      an earlier message for the password. */
  const BlankUserNameLogin := Request(map["userName" := " ", PasswordKey := "secret"], LoginFieldOrder,
                                      LoginFormFormat, map["userName" := "", PasswordKey := "Password is required."])

  lemma BlankUserNameChecks()
    ensures CheckField(LoginFormFormat["userName"], " ") == FieldCheck("User Name is required.", 1)
    ensures CheckField(LoginFormFormat[PasswordKey], "secret") == FieldCheck("", 0)
  {
    BlankUserNameCheck();
    PasswordCheck();
  }

  lemma BlankUserNameCheck()
    ensures CheckField(LoginFormFormat["userName"], " ") == FieldCheck("User Name is required.", 1)
  {
    var format := LoginFormFormat["userName"];
    assert format == FieldFormat("User Name", "text", true);
    assert !IsNotEmpty(" ") by {
      assert Text.IsWhitespace(" "[0]);
    }
    assert RequiredMessage(format.labelText) == "User Name is required.";
  }

  lemma PasswordCheck()
    ensures CheckField(LoginFormFormat[PasswordKey], "secret") == FieldCheck("", 0)
  {
    var format := LoginFormFormat[PasswordKey];
    assert format == FieldFormat("Password", "password", true);
    assert IsNotEmpty("secret") by {
      assert !Text.IsWhitespace("secret"[0]);
    }
    assert format.kind !in {EmailKind, TelKind, EmailOrTelKind};
  }

  /** The required rule fails the login submit. */
  lemma LoginBlankUserNameFails()
    ensures WellFormed(BlankUserNameLogin) && !FieldsPass(BlankUserNameLogin)
  {
    var req := BlankUserNameLogin;
    BlankUserNameChecks();
    CountZeroIffNoFailure(req.formFormat, req.formData, req.formFieldOrder);
  }

  /** The published map shows the required message and clears the password's old message. */
  lemma LoginBlankUserNameErrors()
    ensures WellFormed(BlankUserNameLogin)
    ensures FieldErrors(BlankUserNameLogin) == map["userName" := "User Name is required.", PasswordKey := ""]
  {
    LoginFieldErrorEntries();
    BothLoginEntriesOverwritten();
  }

  /** Both entries of the shown map are replaced, so nothing of it survives. */
  lemma BothLoginEntriesOverwritten()
    ensures BlankUserNameLogin.errorMessage["userName" := "User Name is required."][PasswordKey := ""]
         == map["userName" := "User Name is required.", PasswordKey := ""]
  {
    var m := BlankUserNameLogin.errorMessage["userName" := "User Name is required."][PasswordKey := ""];
    assert m.Keys == {"userName", PasswordKey};
  }

  /** The login submit overwrites the two entries of the shown map, in field order. */
  lemma LoginFieldErrorEntries()
    ensures WellFormed(BlankUserNameLogin)
    ensures FieldErrors(BlankUserNameLogin)
         == BlankUserNameLogin.errorMessage["userName" := "User Name is required."][PasswordKey := ""]
  {
    var req := BlankUserNameLogin;
    var order := req.formFieldOrder;
    BlankUserNameChecks();
    LoginUserNameEntry();
    assert order[..1] == ["userName"];
  }

  lemma LoginUserNameEntry()
    ensures "userName" in BlankUserNameLogin.formFormat && "userName" in BlankUserNameLogin.formData
    ensures OverwriteFields(BlankUserNameLogin, ["userName"])
         == BlankUserNameLogin.errorMessage["userName" := "User Name is required."]
  {
    BlankUserNameCheck();
    assert ["userName"][..0] == [];
  }
}
