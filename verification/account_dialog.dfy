/** src/components/AccountDialog.tsx: the account form, its validation (required
    fields, email shape, duplicate email when adding) and its change handlers.
    The dialog's props (mode and the stored accounts it consults) are parameters. */
module AccountDialog {
  import opened Lists
  import opened Entities

  datatype AccountField = Title | FirstName | LastName | Email | Role | Status

  /** One optional message per field (`Partial<Record<keyof Account, string>>`). */
  datatype AccountErrors = AccountErrors(
    title: Option<string>,
    firstName: Option<string>,
    lastName: Option<string>,
    email: Option<string>,
    role: Option<string>,
    status: Option<string>)

  const NoErrors := AccountErrors(None, None, None, None, None, None)

  function Get(a: Account, f: AccountField): string
  {
    match f
    case Title => a.title
    case FirstName => a.firstName
    case LastName => a.lastName
    case Email => a.email
    case Role => a.role
    case Status => a.status
  }

  /** `{ ...prev, [name]: value }` */
  function SetField(a: Account, f: AccountField, v: string): (r: Account)
    ensures Get(r, f) == v
    ensures forall g :: g != f ==> Get(r, g) == Get(a, g)
  {
    match f
    case Title => a.(title := v)
    case FirstName => a.(firstName := v)
    case LastName => a.(lastName := v)
    case Email => a.(email := v)
    case Role => a.(role := v)
    case Status => a.(status := v)
  }

  function ErrorOf(e: AccountErrors, f: AccountField): Option<string>
  {
    match f
    case Title => e.title
    case FirstName => e.firstName
    case LastName => e.lastName
    case Email => e.email
    case Role => e.role
    case Status => e.status
  }

  /** `{ ...prev, [name]: undefined }` */
  function ClearError(e: AccountErrors, f: AccountField): (r: AccountErrors)
    ensures ErrorOf(r, f).None?
    ensures forall g :: g != f ==> ErrorOf(r, g) == ErrorOf(e, g)
  {
    match f
    case Title => e.(title := None)
    case FirstName => e.(firstName := None)
    case LastName => e.(lastName := None)
    case Email => e.(email := None)
    case Role => e.(role := None)
    case Status => e.(status := None)
  }

  // ---------------------------------------------------------------------------
  // The email pattern /^[^\s@]+@[^\s@]+\.[^\s@]+$/

  /** JavaScript's `\s`: the white space and line terminator characters. */
  predicate IsSpace(c: char)
  {
    var n := c as int;
    || n == 0x09 || n == 0x0A || n == 0x0B || n == 0x0C || n == 0x0D || n == 0x20
    || n == 0xA0 || n == 0x1680 || (0x2000 <= n <= 0x200A) || n == 0x2028 || n == 0x2029
    || n == 0x202F || n == 0x205F || n == 0x3000 || n == 0xFEFF
  }

  /** A character of the class `[^\s@]`. */
  predicate Plain(c: char)
  {
    !IsSpace(c) && c != '@'
  }

  /** A non-empty run of `[^\s@]` characters. */
  predicate PlainRun(s: string)
  {
    |s| > 0 && forall k :: 0 <= k < |s| ==> Plain(s[k])
  }

  /** The shape the pattern describes: local part, "@", a domain label, ".", and a
      last part, each a non-empty run without white space or "@". */
  ghost predicate EmailShape(s: string)
  {
    exists i, j :: 0 < i && i + 1 < j && j + 1 < |s| && s[i] == '@' && s[j] == '.' &&
      PlainRun(s[..i]) && PlainRun(s[i + 1..j]) && PlainRun(s[j + 1..])
  }

  /** How far the leading `[^\s@]+` reaches. */
  function PlainPrefixLength(s: string): (n: nat)
    ensures n <= |s|
    ensures forall k :: 0 <= k < n ==> Plain(s[k])
    ensures n < |s| ==> !Plain(s[n])
  {
    if s == [] || !Plain(s[0]) then 0 else 1 + PlainPrefixLength(s[1..])
  }

  function IsDot(c: char): bool { c == '.' }

  /** The test as a scan: the local part runs up to the only place an "@" can be;
      after it every character must be plain, with a "." strictly inside. */
  function EmailPatternTest(s: string): bool
  {
    var n := PlainPrefixLength(s);
    if 0 < n && n < |s| && s[n] == '@' then
      var rest := s[n + 1..];
      && (forall k :: 0 <= k < |rest| ==> Plain(rest[k]))
      && |rest| >= 3
      && FindFirst(rest[1..|rest| - 1], IsDot).Some?
    else false
  }

  /** Every string the scan accepts has the shape L@D1.D2 ... */
  lemma EmailPatternSound(s: string)
    requires EmailPatternTest(s)
    ensures EmailShape(s)
  {
    var n := PlainPrefixLength(s);
    var rest := s[n + 1..];
    var m := FindFirst(rest[1..|rest| - 1], IsDot).value;
    var j := n + 2 + m;
    assert s[j] == rest[m + 1] == '.';
    assert PlainRun(s[..n]);
    assert PlainRun(s[n + 1..j]) by {
      assert s[n + 1..j] == rest[..m + 1];
    }
    assert PlainRun(s[j + 1..]) by {
      assert s[j + 1..] == rest[m + 2..];
    }
  }

  /** In a string of the shape, every character but the "@" is plain. */
  lemma ShapePlainOutsideAt(s: string, i: nat, j: nat)
    requires 0 < i && i + 1 < j && j + 1 < |s| && s[j] == '.'
    requires PlainRun(s[..i]) && PlainRun(s[i + 1..j]) && PlainRun(s[j + 1..])
    ensures forall k :: 0 <= k < |s| && k != i ==> Plain(s[k])
  {
    forall k | 0 <= k < |s| && k != i ensures Plain(s[k]) {
      if k < i {
        assert s[k] == s[..i][k];
      } else if k < j {
        assert s[k] == s[i + 1..j][k - i - 1];
      } else if k > j {
        assert s[k] == s[j + 1..][k - j - 1];
      }
    }
  }

  /** The leading plain run ends at the first character that is not plain. */
  lemma PlainPrefixEndsAt(s: string, i: nat)
    requires i < |s| && !Plain(s[i])
    requires forall k :: 0 <= k < i ==> Plain(s[k])
    ensures PlainPrefixLength(s) == i
  {
  }

  /** After the "@" of a string of the shape: all plain, long enough, and a "."
      strictly inside. */
  lemma DomainAccepted(s: string, i: nat, j: nat)
    requires 0 < i && i + 1 < j && j + 1 < |s| && s[j] == '.'
    requires forall k :: 0 <= k < |s| && k != i ==> Plain(s[k])
    ensures var rest := s[i + 1..];
            && (forall k :: 0 <= k < |rest| ==> Plain(rest[k]))
            && |rest| >= 3
            && FindFirst(rest[1..|rest| - 1], IsDot).Some?
  {
    var rest := s[i + 1..];
    forall k | 0 <= k < |rest| ensures Plain(rest[k]) {
      assert rest[k] == s[i + 1 + k];
    }
    var inner := rest[1..|rest| - 1];
    assert inner[j - i - 2] == s[j];
    assert IsDot(inner[j - i - 2]);
  }

  /** ... and the scan accepts every string of that shape. */
  lemma EmailPatternComplete(s: string)
    requires EmailShape(s)
    ensures EmailPatternTest(s)
  {
    var i, j :| 0 < i && i + 1 < j && j + 1 < |s| && s[i] == '@' && s[j] == '.' &&
                PlainRun(s[..i]) && PlainRun(s[i + 1..j]) && PlainRun(s[j + 1..]);
    ShapePlainOutsideAt(s, i, j);
    EmailPatternAccepts(s, i, j);
  }

  lemma EmailPatternAccepts(s: string, i: nat, j: nat)
    requires 0 < i && i + 1 < j && j + 1 < |s| && s[i] == '@' && s[j] == '.'
    requires forall k :: 0 <= k < |s| && k != i ==> Plain(s[k])
    ensures EmailPatternTest(s)
  {
    PlainPrefixEndsAt(s, i);
    DomainAccepted(s, i, j);
  }

  lemma EmailPatternIsShape(s: string)
    ensures EmailPatternTest(s) <==> EmailShape(s)
  {
    if EmailPatternTest(s) { EmailPatternSound(s); }
    if EmailShape(s) { EmailPatternComplete(s); }
  }

  // ---------------------------------------------------------------------------
  // Validation

  const TitleRequired := "Title is required"
  const FirstNameRequired := "First name is required"
  const LastNameRequired := "Last name is required"
  const EmailRequired := "Email is required"
  const InvalidEmail := "Invalid email format"
  const EmailExists := "Email already exists"
  const RoleRequired := "Role is required"
  const StatusRequired := "Status is required"

  /** An account the dialog accepts: every field filled, the email of the right
      shape and, when adding, not the email of an existing account. */
  ghost predicate AccountValid(a: Account, mode: Mode, existing: seq<Account>)
  {
    && a.title != "" && a.firstName != "" && a.lastName != "" && a.role != "" && a.status != ""
    && a.email != "" && EmailShape(a.email)
    && (mode == Add ==> forall k :: 0 <= k < |existing| ==> existing[k].email != a.email)
  }

  /** The email's message: the first that applies of required, invalid format and,
      in add mode only, already exists. */
  method CheckEmail(email: string, mode: Mode, existing: seq<Account>) returns (msg: Option<string>)
    ensures email == "" ==> msg == Some(EmailRequired)
    ensures email != "" && !EmailShape(email) ==> msg == Some(InvalidEmail)
    ensures email != "" && EmailShape(email) ==>
              (msg == Some(EmailExists) <==>
               mode == Add && exists k :: 0 <= k < |existing| && existing[k].email == email)
    ensures msg.None? <==>
              email != "" && EmailShape(email) &&
              (mode == Add ==> forall k :: 0 <= k < |existing| ==> existing[k].email != email)
  {
    EmailPatternIsShape(email);
    msg := None;
    if email == "" {
      msg := Some(EmailRequired);
    } else if !EmailPatternTest(email) {
      msg := Some(InvalidEmail);
    } else if mode == Add {
      if FindFirst(existing, AccountHasEmail(email)).Some? {
        msg := Some(EmailExists);
      } else {
        assert forall k :: 0 <= k < |existing| ==> !AccountHasEmail(email)(existing[k]);
      }
    }
  }

  /** The `newErrors` that validateForm builds: a message for each empty field and
      the email's message; no message at all exactly for a valid account. */
  method CheckAccount(a: Account, mode: Mode, existing: seq<Account>) returns (errs: AccountErrors)
    ensures errs.title == (if a.title == "" then Some(TitleRequired) else None)
    ensures errs.firstName == (if a.firstName == "" then Some(FirstNameRequired) else None)
    ensures errs.lastName == (if a.lastName == "" then Some(LastNameRequired) else None)
    ensures errs.role == (if a.role == "" then Some(RoleRequired) else None)
    ensures errs.status == (if a.status == "" then Some(StatusRequired) else None)
    ensures a.email == "" ==> errs.email == Some(EmailRequired)
    ensures a.email != "" && !EmailShape(a.email) ==> errs.email == Some(InvalidEmail)
    ensures a.email != "" && EmailShape(a.email) ==>
              (errs.email == Some(EmailExists) <==>
               mode == Add && exists k :: 0 <= k < |existing| && existing[k].email == a.email)
    ensures errs == NoErrors <==> AccountValid(a, mode, existing)
  {
    errs := NoErrors;
    if a.title == "" { errs := errs.(title := Some(TitleRequired)); }
    if a.firstName == "" { errs := errs.(firstName := Some(FirstNameRequired)); }
    if a.lastName == "" { errs := errs.(lastName := Some(LastNameRequired)); }
    var emailError := CheckEmail(a.email, mode, existing);
    errs := errs.(email := emailError);
    if a.role == "" { errs := errs.(role := Some(RoleRequired)); }
    if a.status == "" { errs := errs.(status := Some(StatusRequired)); }
  }

  /** The form the dialog opens with: the given account's fields, with "" replaced
      by the defaults (role User, status Active). */
  function InitialAccountData(account: Option<Account>): (a: Account)
    ensures account.None? ==> a == Account("", "", "", "", "User", Active)
    ensures account.Some? && account.value.role != "" && account.value.status != "" ==> a == account.value
  {
    match account
    case None => Account("", "", "", "", "User", Active)
    case Some(x) => Account(x.title, x.firstName, x.lastName, x.email, OrElse(x.role, "User"), OrElse(x.status, Active))
  }

  class AccountForm {
    var formData: Account
    var errors: AccountErrors

    constructor (account: Option<Account>)
      ensures formData == InitialAccountData(account) && errors == NoErrors
    {
      formData := InitialAccountData(account);
      errors := NoErrors;
    }

    /** The effect on a new `account` prop: load it if there is one (otherwise the
        form keeps what it holds), and clear the errors. */
    method Reset(account: Option<Account>)
      modifies this
      ensures formData == if account.Some? then account.value else old(formData)
      ensures errors == NoErrors
    {
      if account.Some? {
        formData := account.value;
      }
      errors := NoErrors;
    }

    /** handleInputChange / handleSelectChange: set the field; clear its error, and
        only its error, if one is shown. */
    method HandleChange(field: AccountField, value: string)
      modifies this
      ensures formData == SetField(old(formData), field, value)
      ensures !Shown(ErrorOf(errors, field))
      ensures forall g :: g != field ==> ErrorOf(errors, g) == ErrorOf(old(errors), g)
      ensures !Shown(ErrorOf(old(errors), field)) ==> errors == old(errors)
    {
      formData := SetField(formData, field, value);
      if Shown(ErrorOf(errors, field)) {
        errors := ClearError(errors, field);
      }
    }

    /** validateForm */
    method ValidateForm(mode: Mode, existing: seq<Account>) returns (ok: bool)
      modifies this`errors
      ensures ok <==> AccountValid(formData, mode, existing)
      ensures ok <==> errors == NoErrors
    {
      var newErrors := CheckAccount(formData, mode, existing);
      errors := newErrors;
      ok := newErrors == NoErrors;
    }

    /** handleSubmit: what reaches onSave, only when the form validates. */
    method HandleSubmit(mode: Mode, existing: seq<Account>) returns (saved: Option<Account>)
      modifies this`errors
      ensures saved.Some? <==> AccountValid(formData, mode, existing)
      ensures saved.Some? ==> saved.value == formData
      ensures formData == old(formData)
    {
      var ok := ValidateForm(mode, existing);
      saved := if ok then Some(formData) else None;
    }
  }
}
