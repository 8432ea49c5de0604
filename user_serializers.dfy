/**
  The serializers of the user app: the field rules and `create`/`update` of
  `UserSerializer`, and the gate checks of `LoginSerializer.validate`.

  Field rules follow the serializer framework's `CharField` and `EmailField`:
  a missing value is "required", an empty (or, when trimming, whitespace-only)
  value is "blank", otherwise the value is stripped when the field trims and
  then every validator of the field is run.
 */
module UserSerializers {
  import opened Outcomes
  import opened Util
  import opened CoreModels

  datatype Field = EmailField | PasswordField | NameField

  const AllFields: set<Field> := {EmailField, PasswordField, NameField}

  /** `AllFields` is every field there is, so a map comprehension over it
      covers each field. */
  lemma EveryFieldListed()
    ensures forall f: Field :: f in AllFields
  {
    forall f: Field ensures f in AllFields {
      match f
      case EmailField =>
      case PasswordField =>
      case NameField =>
    }
  }

  datatype Issue = Required | Blank | Invalid | TooShort | TooLong | NotUnique | NullCharacter

  /** Lengths from the model (email and name columns of 255 characters, the
      password column of 128) and from the serializer (`min_length` 5). */
  const EmailMaxLength: nat := 255
  const NameMaxLength: nat := 255
  const PasswordMinLength: nat := 5
  const PasswordMaxLength: nat := 128

  /** The blank test of a char field. */
  predicate IsBlank(raw: string, trim: bool) {
    raw == "" || (trim && Strip(raw) == "")
  }

  /** The NUL character, which no char field accepts. */
  const Nul: char := '\0'

  /** The validator every char field carries: the cleaned value may not hold
      a NUL character. */
  function NulIssues(v: string): set<Issue> {
    if Nul in v then {NullCharacter} else {}
  }

  /** The length validators of a char field on its cleaned value. */
  function LengthIssues(v: string, minLength: nat, maxLength: nat): (r: set<Issue>)
    ensures TooShort in r <==> |v| < minLength
    ensures TooLong in r <==> |v| > maxLength
    ensures r <= {TooShort, TooLong}
  {
    if |v| < minLength && |v| > maxLength then {TooShort, TooLong}
    else if |v| < minLength then {TooShort}
    else if |v| > maxLength then {TooLong}
    else {}
  }

  /** The registration `email` field, with the unique validator comparing the
      submitted address as the framework does: stripped, NOT normalised. */
  function EmailIssuesAsWritten(raw: Option<string>, isEmail: string -> bool, taken: set<string>): (r: set<Issue>)
    ensures r == {} <==>
      && raw.Some? && Strip(raw.value) != "" && Nul !in Strip(raw.value)
      && |Strip(raw.value)| <= EmailMaxLength && isEmail(Strip(raw.value))
      && Strip(raw.value) !in taken
  {
    match raw
    case None => {Required}
    case Some(s) =>
      if IsBlank(s, true) then {Blank}
      else
        var v := Strip(s);
        NulIssues(v) + LengthIssues(v, 0, EmailMaxLength)
        + (if isEmail(v) then {} else {Invalid})
        + (if v in taken then {NotUnique} else {})
  }

  /** The unique check as written lets through an address that is not itself
      stored but normalises to a stored one, although `create_user` stores it
      normalised, so the save then violates the unique constraint. */
  lemma UniqueCheckAsWrittenAdmitsDuplicate(s: string, taken: set<string>, isEmail: string -> bool)
    requires s != "" && Strip(s) == s && Nul !in s && |s| <= EmailMaxLength && isEmail(s)
    requires s !in taken && NormalizeEmail(Some(s)) in taken
    ensures EmailIssuesAsWritten(Some(s), isEmail, taken) == {}
  {
    CleanEmailIssues(s, isEmail, taken);
    assert EmailIssuesAsWritten(Some(s), isEmail, taken) == {} + {} + {};
  }

  /** The corrected check reports the same address as not unique, and as
      nothing else. */
  lemma UniqueCheckRejectsNormalisedDuplicate(s: string, taken: set<string>, isEmail: string -> bool)
    requires s != "" && Strip(s) == s && Nul !in s && |s| <= EmailMaxLength && isEmail(s)
    requires NormalizeEmail(Some(s)) in taken
    ensures EmailIssues(Some(s), isEmail, taken) == {NotUnique}
  {
    CleanEmailIssues(s, isEmail, taken);
    assert EmailIssues(Some(s), isEmail, taken) == {} + {} + {NotUnique};
  }

  /** Such addresses exist: an address with no surrounding whitespace whose
      domain holds an upper-case letter (at index `k`) normalises to a
      different one. */
  lemma MixedCaseDomainNormalisesElsewhere(name: string, domain: string, k: nat)
    requires name != [] && !IsSpace(name[0])
    requires domain != [] && !IsSpace(domain[|domain| - 1]) && '@' !in domain
    requires k < |domain| && 'A' <= domain[k] <= 'Z'
    ensures var s := name + "@" + domain;
      && s != "" && Strip(s) == s
      && s != NormalizeEmail(Some(s)) && NormalizeEmail(Some(s)) == name + "@" + Lower(domain)
  {
    var s := name + "@" + domain;
    assert s[0] == name[0] && s[|s| - 1] == domain[|domain| - 1];
    StripOfTrimmed(s);
    NormalizeStrippedSplit(s, name, domain);
    DomainCaseMatters(name, domain, k);
  }

  /** Lower-casing changes a domain with an upper-case letter, so two
      addresses with the same local part differ. */
  lemma DomainCaseMatters(name: string, domain: string, k: nat)
    requires k < |domain| && 'A' <= domain[k] <= 'Z'
    ensures name + "@" + domain != name + "@" + Lower(domain)
  {
    assert (name + "@" + domain)[|name| + 1 + k] == domain[k];
    assert (name + "@" + Lower(domain))[|name| + 1 + k] == Lower(domain)[k];
  }

  /** The issues of a non-empty, already stripped address of allowed length. */
  lemma CleanEmailIssues(s: string, isEmail: string -> bool, taken: set<string>)
    requires s != "" && Strip(s) == s && |s| <= EmailMaxLength
    ensures EmailIssuesAsWritten(Some(s), isEmail, taken)
         == NulIssues(s) + (if isEmail(s) then {} else {Invalid}) + (if s in taken then {NotUnique} else {})
    ensures EmailIssues(Some(s), isEmail, taken)
         == NulIssues(s) + (if isEmail(s) then {} else {Invalid})
            + (if s in taken || NormalizeEmail(Some(s)) in taken then {NotUnique} else {})
  {
    assert LengthIssues(s, 0, EmailMaxLength) == {};
  }

  /** The discrepancy in one piece: with `name@lower(domain)` stored, the
      address `name@domain` (an upper-case letter in its domain) passes the
      unique check as written, although it normalises to the stored address,
      so `create_user` refuses it; the corrected check reports it. */
  lemma FindingInput(name: string, domain: string, k: nat, isEmail: string -> bool)
    requires name != [] && !IsSpace(name[0])
    requires domain != [] && !IsSpace(domain[|domain| - 1]) && '@' !in domain
    requires k < |domain| && 'A' <= domain[k] <= 'Z'
    requires Nul !in name && Nul !in domain && |name| + 1 + |domain| <= EmailMaxLength
    requires isEmail(name + "@" + domain)
    ensures var s, stored := name + "@" + domain, name + "@" + Lower(domain);
      && s != stored && NormalizeEmail(Some(s)) == stored
      && EmailIssuesAsWritten(Some(s), isEmail, {stored}) == {}
      && EmailIssues(Some(s), isEmail, {stored}) == {NotUnique}
  {
    var s, stored := name + "@" + domain, name + "@" + Lower(domain);
    MixedCaseDomainNormalisesElsewhere(name, domain, k);
    JoinLacks(name, domain, Nul);
    UniqueChecksDisagree(s, stored, isEmail);
  }

  /** Both unique checks on one clean address whose normalised form, and
      only that, is stored. */
  lemma UniqueChecksDisagree(s: string, stored: string, isEmail: string -> bool)
    requires s != "" && Strip(s) == s && Nul !in s && |s| <= EmailMaxLength && isEmail(s)
    requires s != stored && NormalizeEmail(Some(s)) == stored
    ensures EmailIssuesAsWritten(Some(s), isEmail, {stored}) == {}
    ensures EmailIssues(Some(s), isEmail, {stored}) == {NotUnique}
  {
    UniqueCheckAsWrittenAdmitsDuplicate(s, {stored}, isEmail);
    UniqueCheckRejectsNormalisedDuplicate(s, {stored}, isEmail);
  }

  /** Joining two parts with an '@' brings in no other character. */
  lemma JoinLacks(name: string, domain: string, c: char)
    requires c != '@' && c !in name && c !in domain
    ensures c !in name + "@" + domain
  {
    var s := name + "@" + domain;
    forall i | 0 <= i < |s| ensures s[i] != c {
      if i < |name| { assert s[i] == name[i]; }
      else if i > |name| { assert s[i] == domain[i - |name| - 1]; }
    }
  }

  /** The input of the discrepancy: "ann@Example.com" while "ann@example.com"
      is stored meets the premises of `FindingInput` (with `k` 0). */
  lemma MixedCaseDomainIsAnInstance(name: string, domain: string)
    requires name == "ann" && domain == "Example.com"
    ensures Nul !in name && Nul !in domain && |name| + 1 + |domain| <= EmailMaxLength
    ensures name != [] && !IsSpace(name[0])
    ensures domain != [] && !IsSpace(domain[|domain| - 1]) && '@' !in domain
    ensures 'A' <= domain[0] <= 'Z'
  {
  }

  /** The registration `email` field with the unique validator applied both
      to the submitted address and to the address `create_user` will store,
      i.e. the normalised one. */
  function EmailIssues(raw: Option<string>, isEmail: string -> bool, taken: set<string>): (r: set<Issue>)
    ensures r == {} <==>
      && raw.Some? && Strip(raw.value) != "" && Nul !in Strip(raw.value)
      && |Strip(raw.value)| <= EmailMaxLength && isEmail(Strip(raw.value))
      && Strip(raw.value) !in taken && NormalizeEmail(Some(Strip(raw.value))) !in taken
  {
    match raw
    case None => {Required}
    case Some(s) =>
      if IsBlank(s, true) then {Blank}
      else
        var v := Strip(s);
        NulIssues(v) + LengthIssues(v, 0, EmailMaxLength)
        + (if isEmail(v) then {} else {Invalid})
        + (if v in taken || NormalizeEmail(Some(v)) in taken then {NotUnique} else {})
  }

  /** The corrected check only adds rejections: every issue the field
      reports as written it still reports. */
  lemma CorrectionOnlyAddsIssues(raw: Option<string>, isEmail: string -> bool, taken: set<string>)
    ensures EmailIssuesAsWritten(raw, isEmail, taken) <= EmailIssues(raw, isEmail, taken)
  {
    if raw.Some? && !IsBlank(raw.value, true) {
      var v := Strip(raw.value);
      var common := NulIssues(v) + LengthIssues(v, 0, EmailMaxLength) + (if isEmail(v) then {} else {Invalid});
      assert EmailIssuesAsWritten(raw, isEmail, taken) == common + (if v in taken then {NotUnique} else {});
      assert EmailIssues(raw, isEmail, taken)
          == common + (if v in taken || NormalizeEmail(Some(v)) in taken then {NotUnique} else {});
    }
  }

  /** The write-only `password` field: trimmed, at least 5 characters, no
      NUL. */
  function PasswordIssues(raw: Option<string>): (r: set<Issue>)
    ensures r == {} <==>
      raw.Some? && PasswordMinLength <= |Strip(raw.value)| <= PasswordMaxLength && Nul !in Strip(raw.value)
  {
    match raw
    case None => {Required}
    case Some(s) =>
      if IsBlank(s, true) then {Blank}
      else NulIssues(Strip(s)) + LengthIssues(Strip(s), PasswordMinLength, PasswordMaxLength)
  }

  /** The `name` field: trimmed, not blank, at most 255 characters, no NUL. */
  function NameIssues(raw: Option<string>): (r: set<Issue>)
    ensures r == {} <==>
      raw.Some? && Strip(raw.value) != "" && |Strip(raw.value)| <= NameMaxLength && Nul !in Strip(raw.value)
  {
    match raw
    case None => {Required}
    case Some(s) =>
      if IsBlank(s, true) then {Blank}
      else NulIssues(Strip(s)) + LengthIssues(Strip(s), 0, NameMaxLength)
  }

  /** The request data of a registration; None is a missing key. */
  datatype RegistrationData = RegistrationData(email: Option<string>, password: Option<string>, name: Option<string>)

  /** `validated_data` of a registration: the cleaned values. */
  datatype Registration = Registration(email: string, password: string, name: string)

  /** The field errors: every field with at least one issue, and its issues. */
  function ErrorMap(issues: Field -> set<Issue>): (errs: map<Field, set<Issue>>)
    ensures forall f: Field :: f in errs <==> issues(f) != {}
    ensures forall f | f in errs :: errs[f] == issues(f)
  {
    EveryFieldListed();
    map f | f in AllFields && issues(f) != {} :: issues(f)
  }

  /** The issues of one registration field. */
  function RegistrationIssues(data: RegistrationData, isEmail: string -> bool, taken: set<string>, f: Field): set<Issue> {
    match f
    case EmailField => EmailIssues(data.email, isEmail, taken)
    case PasswordField => PasswordIssues(data.password)
    case NameField => NameIssues(data.name)
  }

  function RegistrationErrors(data: RegistrationData, isEmail: string -> bool, taken: set<string>): map<Field, set<Issue>> {
    ErrorMap(f => RegistrationIssues(data, isEmail, taken, f))
  }

  /** `serializer.is_valid()` for a registration against the e-mails already
      stored (`taken`), with the unique check on both the submitted and the
      normalised address (the corrected `EmailIssues`; `EmailIssuesAsWritten`
      is the check as the framework runs it). What it accepts is what
      `create_user` can store: a non-empty address that is not stored and
      whose normalised form is not stored either, a stripped password of
      5 to 128 characters and a non-blank name, none holding a NUL. */
  function ValidateRegistration(data: RegistrationData, isEmail: string -> bool, taken: set<string>)
    : (r: Result<Registration, map<Field, set<Issue>>>)
    ensures r.Err? <==> RegistrationErrors(data, isEmail, taken) != map[]
    ensures r.Err? ==> r.error == RegistrationErrors(data, isEmail, taken)
    ensures r.Ok? ==>
      && data.email.Some? && data.password.Some? && data.name.Some?
      && r.value == Registration(Strip(data.email.value), Strip(data.password.value), Strip(data.name.value))
      && r.value.email != "" && isEmail(r.value.email) && |r.value.email| <= EmailMaxLength
      && r.value.email !in taken && NormalizeEmail(Some(r.value.email)) !in taken
      && PasswordMinLength <= |r.value.password| <= PasswordMaxLength
      && r.value.name != "" && |r.value.name| <= NameMaxLength
      && Nul !in r.value.email && Nul !in r.value.password && Nul !in r.value.name
  {
    var errs := RegistrationErrors(data, isEmail, taken);
    if errs != map[] then Err(errs)
    else
      assert EmailField !in errs && PasswordField !in errs && NameField !in errs;
      assert RegistrationIssues(data, isEmail, taken, EmailField) == {};
      assert RegistrationIssues(data, isEmail, taken, PasswordField) == {};
      assert RegistrationIssues(data, isEmail, taken, NameField) == {};
      Ok(Registration(Strip(data.email.value), Strip(data.password.value), Strip(data.name.value)))
  }

  /** A registration whose stripped password is shorter than 5 characters is
      rejected with a password error, whatever the other fields hold. */
  lemma ShortPasswordRejected(data: RegistrationData, isEmail: string -> bool, taken: set<string>)
    requires data.password.Some? && |Strip(data.password.value)| < PasswordMinLength
    ensures var r := ValidateRegistration(data, isEmail, taken);
      r.Err? && PasswordField in r.error
  {
    assert RegistrationIssues(data, isEmail, taken, PasswordField) != {};
  }

  /** An address stored exactly as submitted (after stripping) is refused
      with an error on `email`, whether or not it is in normal form; unless
      the submission is blank, the error is NotUnique. */
  lemma VerbatimDuplicateRejected(data: RegistrationData, isEmail: string -> bool, taken: set<string>)
    requires data.email.Some? && Strip(data.email.value) in taken
    ensures var r := ValidateRegistration(data, isEmail, taken);
      && r.Err? && EmailField in r.error
      && (Strip(data.email.value) != "" ==> NotUnique in r.error[EmailField])
  {
    if !IsBlank(data.email.value, true) {
      assert NotUnique in EmailIssues(data.email, isEmail, taken);
    }
    assert RegistrationIssues(data, isEmail, taken, EmailField) != {};
  }

  /** A NUL anywhere in a submitted field makes the registration fail with
      an error on that field. */
  lemma NulRejected(data: RegistrationData, isEmail: string -> bool, taken: set<string>)
    requires || (data.email.Some? && Nul in data.email.value)
             || (data.password.Some? && Nul in data.password.value)
             || (data.name.Some? && Nul in data.name.value)
    ensures var r := ValidateRegistration(data, isEmail, taken);
      && r.Err?
      && (data.email.Some? && Nul in data.email.value ==> EmailField in r.error)
      && (data.password.Some? && Nul in data.password.value ==> PasswordField in r.error)
      && (data.name.Some? && Nul in data.name.value ==> NameField in r.error)
  {
    if data.email.Some? && Nul in data.email.value {
      StripKeepsNonSpace(data.email.value, Nul);
      assert RegistrationIssues(data, isEmail, taken, EmailField) != {};
    }
    if data.password.Some? && Nul in data.password.value {
      StripKeepsNonSpace(data.password.value, Nul);
      assert RegistrationIssues(data, isEmail, taken, PasswordField) != {};
    }
    if data.name.Some? && Nul in data.name.value {
      StripKeepsNonSpace(data.name.value, Nul);
      assert RegistrationIssues(data, isEmail, taken, NameField) != {};
    }
  }

  /** The fields `UserSerializer` outputs: `password` is write-only. */
  datatype PublicUser = PublicUser(email: string, name: string)

  /** `serializer.data` of a saved user. */
  function Represent(u: User): (p: PublicUser)
    ensures p.email == u.email && p.name == u.name
  {
    PublicUser(u.email, u.name)
  }

  /** `UserSerializer.create`: hands the cleaned values to `create_user`. */
  method Create(store: UserManager, v: Registration, salt: nat) returns (r: Result<User, CreateError>)
    requires store.Valid()
    modifies store
    ensures store.Valid()
    ensures v.email == "" ==>
      r == Err(EmailRequired) && store.users == old(store.users) && store.nextId == old(store.nextId)
    ensures v.email != "" && NormalizeEmail(Some(v.email)) in old(store.users) ==>
      r == Err(DuplicateEmail) && store.users == old(store.users) && store.nextId == old(store.nextId)
    ensures v.email != "" && NormalizeEmail(Some(v.email)) !in old(store.users) ==>
      && r == Ok(NewUser(store.hasher, old(store.nextId), v.email, Some(v.password), NameOnly(v.name), salt))
      && store.users == old(store.users)[r.value.email := r.value]
      && store.nextId == old(store.nextId) + 1
  {
    r := store.CreateUser(Some(v.email), Some(v.password), NameOnly(v.name), salt);
  }

  /** `validated_data` of an update; None is a field not supplied. */
  datatype UpdateData = UpdateData(email: Option<string>, name: Option<string>, password: Option<string>)

  /** The update carries a new password: supplied and non-empty. */
  predicate SetsPassword(data: UpdateData) {
    data.password.Some? && data.password.value != ""
  }

  /** The row `UserSerializer.update` leaves: supplied `email` and `name`
      assigned, a new hash only for a non-empty password, everything else
      (the verification flag included) untouched. */
  function Updated(hasher: Hasher, u: User, data: UpdateData, salt: nat): (v: User)
    ensures v.id == u.id && v.isActive == u.isActive && v.isStaff == u.isStaff
    ensures v.isSuperuser == u.isSuperuser && v.isVerified == u.isVerified
    ensures v.email == data.email.GetOr(u.email) && v.name == data.name.GetOr(u.name)
    ensures SetsPassword(data) ==> CheckPassword(hasher, v.password, data.password.value)
    ensures !SetsPassword(data) ==> v.password == u.password
  {
    var withFields := u.(email := data.email.GetOr(u.email), name := data.name.GetOr(u.name));
    if SetsPassword(data) then withFields.(password := MakePassword(hasher, data.password, salt))
    else withFields
  }

  /** `UserSerializer.update(instance, validated_data)` on the row stored
      under `key`: pops the password, assigns the other fields and saves,
      then sets and saves the new password if one was given. */
  method Update(store: UserManager, key: string, data: UpdateData, salt: nat) returns (r: Result<User, CreateError>)
    requires store.Valid() && key in store.users
    modifies store
    ensures store.Valid() && store.nextId == old(store.nextId)
    ensures var v := Updated(store.hasher, old(store.users)[key], data, salt);
      if v.email != key && v.email in old(store.users) then
        r == Err(DuplicateEmail) && store.users == old(store.users)
      else
        r == Ok(v) && store.users == (old(store.users) - {key})[v.email := v]
  {
    ghost var before := store.users;
    ghost var v := Updated(store.hasher, before[key], data, salt);
    var password := data.password;
    var u := store.users[key];
    var user := u.(email := data.email.GetOr(u.email), name := data.name.GetOr(u.name));
    var saved := store.Save(key, user);
    if !saved {
      assert v.email == user.email;
      return Err(DuplicateEmail);
    }
    ghost var moved := store.users;
    if password.Some? && password.value != "" {
      user := user.(password := MakePassword(store.hasher, password, salt));
      saved := store.Save(user.email, user);
      assert (moved - {user.email})[user.email := user] == (before - {key})[user.email := user];
    }
    assert user == v;
    r := Ok(user);
  }

  /** The request data of a login. */
  datatype LoginData = LoginData(email: Option<string>, password: Option<string>)

  /** The field errors of `LoginSerializer`: `email` is a trimmed char field,
      `password` a char field that does not trim, both required, not blank
      and free of NUL. */
  function LoginErrors(data: LoginData): (errs: map<Field, set<Issue>>)
    ensures EmailField in errs <==>
      data.email.None? || Strip(data.email.value) == "" || Nul in Strip(data.email.value)
    ensures PasswordField in errs <==>
      data.password.None? || data.password.value == "" || Nul in data.password.value
    ensures NameField !in errs
    ensures errs == map[] <==>
      && data.email.Some? && Strip(data.email.value) != "" && Nul !in Strip(data.email.value)
      && data.password.Some? && data.password.value != "" && Nul !in data.password.value
  {
    var errs := ErrorMap(f => LoginIssues(data, f));
    assert errs == map[] <== EmailField !in errs && PasswordField !in errs && NameField !in errs by {
      EveryFieldListed();
    }
    errs
  }

  /** The issues of one login field. */
  function LoginIssues(data: LoginData, f: Field): set<Issue> {
    match f
    case EmailField =>
      (match data.email case None => {Required} case Some(s) => if IsBlank(s, true) then {Blank} else NulIssues(Strip(s)))
    case PasswordField =>
      (match data.password case None => {Required} case Some(s) => if IsBlank(s, false) then {Blank} else NulIssues(s))
    case NameField => {}
  }

  /** Why `LoginSerializer.validate` raises AuthenticationFailed. */
  datatype AuthFailure = BadCredentials | AccountDisabled | EmailNotVerified

  /** The message `validate` raises for each failure. */
  function AuthMessage(f: AuthFailure): (msg: string)
    ensures msg != ""
  {
    match f
    case BadCredentials => "Unable to authenticate with provided credentials"
    case AccountDisabled => "Account is disabled, contact admin."
    case EmailNotVerified => "Email is not verified."
  }

  /** Each failure has its own message, so the message tells the client
      which check refused it. */
  lemma AuthMessagesDistinct(f: AuthFailure, g: AuthFailure)
    requires AuthMessage(f) == AuthMessage(g)
    ensures f == g
  {
  }

  /** The token pair `user.tokens()` issues for a user (opaque here). */
  datatype Tokens = TokensFor(userId: nat)

  /** What a successful `validate` returns. */
  datatype LoginResult = LoginResult(email: string, name: string, tokens: Tokens)

  /** `authenticate` with the email as user name: a row stored under
      exactly this email whose hash checks against the password. */
  predicate Authenticates(hasher: Hasher, users: map<string, User>, email: string, password: string): (ok: bool)
    ensures email !in users ==> !ok
    ensures email in users && users[email].password.Unusable? ==> !ok
    ensures email in users && users[email].password.Salted? ==>
      (users[email].password == MakePassword(hasher, Some(password), users[email].password.salt) ==> ok)
  {
    email in users && CheckPassword(hasher, users[email].password, password)
  }

  /** `LoginSerializer.validate`: credentials first, then `is_active`, then
      `is_verified`; the first failing check decides the message, and there
      is no exception for staff. */
  function ValidateLogin(hasher: Hasher, users: map<string, User>, email: string, password: string)
    : (r: Result<LoginResult, AuthFailure>)
    ensures r == Err(BadCredentials) <==> !Authenticates(hasher, users, email, password)
    ensures r == Err(AccountDisabled) <==>
      Authenticates(hasher, users, email, password) && !users[email].isActive
    ensures r == Err(EmailNotVerified) <==>
      Authenticates(hasher, users, email, password) && users[email].isActive && !users[email].isVerified
    ensures r.Ok? <==>
      Authenticates(hasher, users, email, password) && users[email].isActive && users[email].isVerified
    ensures r.Ok? ==>
      r.value == LoginResult(users[email].email, users[email].name, TokensFor(users[email].id))
  {
    if !Authenticates(hasher, users, email, password) then Err(BadCredentials)
    else
      var user := users[email];
      if !user.isActive then Err(AccountDisabled)
      else if !user.isVerified then Err(EmailNotVerified)
      else Ok(LoginResult(user.email, user.name, TokensFor(user.id)))
  }

  /** Staff and superuser flags play no part in logging in. */
  lemma LoginIgnoresStaff(hasher: Hasher, users: map<string, User>, key: string,
                          staff: bool, superuser: bool, email: string, password: string)
    requires key in users
    ensures ValidateLogin(hasher, users[key := users[key].(isStaff := staff, isSuperuser := superuser)], email, password)
         == ValidateLogin(hasher, users, email, password)
  {
    var users' := users[key := users[key].(isStaff := staff, isSuperuser := superuser)];
    assert users'.Keys == users.Keys;
    if email in users {
      assert users'[email].password == users[email].password;
      assert users'[email].isActive == users[email].isActive;
      assert users'[email].isVerified == users[email].isVerified;
    }
  }
}
