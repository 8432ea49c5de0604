/**
  The views of the user app: registration with a verification mail, e-mail
  verification by token, and login. Request context (the current site's
  domain, the reversed verify path), token signing and decoding, and the
  e-mail syntax check are parameters.
 */
module UserViews {
  import opened Outcomes
  import opened Util
  import opened CoreModels
  import opened UserSerializers

  /** The JSON payload of a response. */
  datatype Body =
    | UserBody(user: PublicUser)
    | ErrorsBody(errors: map<Field, set<Issue>>)
    | MessageBody(key: string, text: string)
    | LoginBody(result: LoginResult)

  datatype Response = Response(status: nat, body: Body)

  /** What decoding the `token` query parameter gives: the user id claim, an
      expired signature, or a token that does not decode (a missing one
      included). */
  datatype Decoded = Decoded(userId: nat) | Expired | Malformed

  const VerifySubject := "Verify your email"
  const LinkInstruction := " Use link below to verify your email \n"

  /** The absolute verification link: scheme, site domain, verify path and
      the token as query parameter. */
  function VerificationLink(domain: string, verifyPath: string, token: string): (link: string)
    ensures |link| >= 7 + |token| && link[..7] == "http://"
    ensures link[|link| - |token| - 7..] == "?token=" + token
  {
    "http://" + domain + verifyPath + "?token=" + token
  }

  /** The mail body: a greeting with the user's name, the instruction line,
      then the link. */
  function VerificationBody(name: string, link: string): (body: string)
    ensures |body| >= 6 + |name| + |link| && body[..6 + |name|] == "Hello " + name
    ensures body[|body| - |link|..] == link
  {
    "Hello " + name + "!" + LinkInstruction + link
  }

  /** The message `RegisterUserView.post` hands to `Util.send_email`. */
  function VerificationMail(u: User, domain: string, verifyPath: string, token: string): (m: Mail)
    ensures m.toEmail == u.email && m.subject == VerifySubject
    ensures |m.body| >= |token| && m.body[|m.body| - |token|..] == token
  {
    Mail(u.email, VerifySubject, VerificationBody(u.name, VerificationLink(domain, verifyPath, token)))
  }

  /** The verification body greets the user by name, ends with the link, and
      the link ends with `?token=` followed by the token, so the link can be
      cut off the end of the body and the token off the end of the link. */
  lemma VerificationMailShape(u: User, domain: string, verifyPath: string, token: string)
    ensures var link, body := VerificationLink(domain, verifyPath, token), VerificationMail(u, domain, verifyPath, token).body;
      && |link| <= |body| && body[|body| - |link|..] == link
      && body[..6 + |u.name|] == "Hello " + u.name
      && |token| + 7 <= |link| && link[|link| - |token| - 7..] == "?token=" + token
      && link[..7] == "http://"
  {
  }

  /** The token at the end of the verification mail is the one issued for
      the user, so a decoder that inverts the issuer recovers the user's id. */
  lemma MailTokenNamesUser(u: User, domain: string, verifyPath: string,
                           accessTokenFor: nat -> string, decode: string -> Decoded)
    requires decode(accessTokenFor(u.id)) == Decoded(u.id)
    ensures var token, body := accessTokenFor(u.id), VerificationMail(u, domain, verifyPath, accessTokenFor(u.id)).body;
      |token| <= |body| && decode(body[|body| - |token|..]) == Decoded(u.id)
  {
    var token := accessTokenFor(u.id);
    var link := VerificationLink(domain, verifyPath, token);
    var body := VerificationMail(u, domain, verifyPath, token).body;
    VerificationMailShape(u, domain, verifyPath, token);
    assert body[|body| - |token|..] == link[|link| - |token|..];
    assert link[|link| - |token|..] == ("?token=" + token)[7..];
  }

  /** `RegisterUserView.post`: validate, create the user, send one mail with
      a link carrying an access token for the new user's id, answer 201 with
      the user's public fields. On invalid data: 400, nothing stored, nothing
      sent. */
  method Register(store: UserManager, outbox: Outbox, data: RegistrationData, isEmail: string -> bool,
                  domain: string, verifyPath: string, accessTokenFor: nat -> string, salt: nat)
    returns (resp: Response)
    requires store.Valid()
    modifies store, outbox
    ensures store.Valid()
    ensures resp.status == 201 || resp.status == 400
    ensures var checked := ValidateRegistration(data, isEmail, old(store.users).Keys);
      checked.Err? ==>
        && resp == Response(400, ErrorsBody(checked.error))
        && store.users == old(store.users) && store.nextId == old(store.nextId)
        && outbox.sent == old(outbox.sent)
    ensures var checked := ValidateRegistration(data, isEmail, old(store.users).Keys);
      checked.Ok? ==>
        var u := NewUser(store.hasher, old(store.nextId), checked.value.email, Some(checked.value.password),
                         NameOnly(checked.value.name), salt);
        && resp == Response(201, UserBody(Represent(u)))
        && store.users == old(store.users)[u.email := u] && store.nextId == old(store.nextId) + 1
        && outbox.sent == old(outbox.sent) + [VerificationMail(u, domain, verifyPath, accessTokenFor(u.id))]
  {
    var checked := ValidateRegistration(data, isEmail, store.users.Keys);
    if checked.Err? {
      return Response(400, ErrorsBody(checked.error));
    }
    var created := Create(store, checked.value, salt);
    // The unique check ran on the normalised address, so the save cannot hit
    // the unique constraint.
    assert created.Ok?;
    var userData := Represent(created.value);
    var user := store.users[userData.email];
    var token := accessTokenFor(user.id);
    var absUrl := VerificationLink(domain, verifyPath, token);
    var emailBody := VerificationBody(user.name, absUrl);
    outbox.SendEmail(Mail(user.email, VerifySubject, emailBody));
    resp := Response(201, UserBody(userData));
  }

  /** `VerifyEmailView.get`: a token naming a user marks that user verified
      (a no-op when already verified) and answers 200; an expired or an
      undecodable token answers 400 with its own message and changes nothing. */
  method VerifyEmail(store: UserManager, token: Decoded) returns (resp: Response)
    requires store.Valid()
    requires token.Decoded? ==> store.HasId(token.userId)
    modifies store
    ensures store.Valid() && store.nextId == old(store.nextId)
    ensures token.Expired? ==>
      resp == Response(400, MessageBody("error", "Activation Expired !")) && store.users == old(store.users)
    ensures token.Malformed? ==>
      resp == Response(400, MessageBody("error", "Invalid token")) && store.users == old(store.users)
    ensures token.Decoded? ==>
      && resp == Response(200, MessageBody("email", "Successfully activated !"))
      && var k := old(store.KeyOfId(token.userId));
         store.users == old(store.users)[k := old(store.users)[k].(isVerified := true)]
    ensures token.Decoded? && old(store.users[store.KeyOfId(token.userId)].isVerified) ==>
      store.users == old(store.users)
  {
    match token
    case Expired =>
      resp := Response(400, MessageBody("error", "Activation Expired !"));
    case Malformed =>
      resp := Response(400, MessageBody("error", "Invalid token"));
    case Decoded(uid) =>
      ghost var before := store.users;
      var e :| e in store.users && store.users[e].id == uid;
      var user := store.users[e];
      if !user.isVerified {
        user := user.(isVerified := true);
        var saved := store.Save(e, user);
        assert (before - {e})[e := user] == before[e := user];
      } else {
        assert before[e := user.(isVerified := true)] == before;
      }
      resp := Response(200, MessageBody("email", "Successfully activated !"));
  }

  /** `LoginUserView.post`: 400 on field errors, 401 with the message of the
      first failed gate check, otherwise 200 with email, name and tokens. */
  function LoginView(hasher: Hasher, users: map<string, User>, data: LoginData): (resp: Response)
    ensures resp.status == 400 <==> LoginErrors(data) != map[]
    ensures resp.status == 400 ==> resp.body == ErrorsBody(LoginErrors(data))
    ensures resp.status == 401 ==>
      && LoginErrors(data) == map[]
      && ValidateLogin(hasher, users, Strip(data.email.value), data.password.value).Err?
      && resp.body == MessageBody("detail",
           AuthMessage(ValidateLogin(hasher, users, Strip(data.email.value), data.password.value).error))
    ensures resp.status == 200 <==>
      && data.email.Some? && data.password.Some?
      && Strip(data.email.value) != "" && data.password.value != ""
      && Nul !in Strip(data.email.value) && Nul !in data.password.value
      && Authenticates(hasher, users, Strip(data.email.value), data.password.value)
      && users[Strip(data.email.value)].isActive && users[Strip(data.email.value)].isVerified
    ensures resp.status == 200 ==>
      var u := users[Strip(data.email.value)];
      resp.body == LoginBody(LoginResult(u.email, u.name, TokensFor(u.id)))
    ensures resp.status in {200, 400, 401}
  {
    var errs := LoginErrors(data);
    if errs != map[] then Response(400, ErrorsBody(errs))
    else
      match ValidateLogin(hasher, users, Strip(data.email.value), data.password.value)
      case Err(f) => Response(401, MessageBody("detail", AuthMessage(f)))
      case Ok(result) => Response(200, LoginBody(result))
  }

  /** An active user logging in with the stored address and the right
      password is let in exactly when verified, and otherwise refused with
      "Email is not verified.". */
  lemma LoginOfActiveUser(hasher: Hasher, users: map<string, User>, u: User, password: string)
    requires u.email in users && users[u.email] == u
    requires u.email != "" && Strip(u.email) == u.email && password != ""
    requires Nul !in u.email && Nul !in password
    requires CheckPassword(hasher, u.password, password) && u.isActive
    ensures LoginView(hasher, users, LoginData(Some(u.email), Some(password)))
         == if u.isVerified then Response(200, LoginBody(LoginResult(u.email, u.name, TokensFor(u.id))))
            else Response(401, MessageBody("detail", "Email is not verified."))
  {
    assert LoginErrors(LoginData(Some(u.email), Some(password))) == map[];
    assert Authenticates(hasher, users, u.email, password);
  }

  /** An active, unverified user is refused with "Email is not verified."
      when logging in with the stored address and the right password, and
      let in once `VerifyEmail` has set the flag. */
  lemma LoginNeedsVerification(hasher: Hasher, users: map<string, User>, u: User, password: string)
    requires u.email in users && users[u.email] == u
    requires u.email != "" && Strip(u.email) == u.email && password != ""
    requires Nul !in u.email && Nul !in password
    requires CheckPassword(hasher, u.password, password) && u.isActive && !u.isVerified
    ensures var data := LoginData(Some(u.email), Some(password));
      && LoginView(hasher, users, data) == Response(401, MessageBody("detail", "Email is not verified."))
      && LoginView(hasher, users[u.email := u.(isVerified := true)], data)
         == Response(200, LoginBody(LoginResult(u.email, u.name, TokensFor(u.id))))
  {
    LoginOfActiveUser(hasher, users, u, password);
    var v := u.(isVerified := true);
    LoginOfActiveUser(hasher, users[u.email := v], v, password);
  }

  /** A user that a valid registration creates is such a user: stored under
      a non-empty address with no surrounding whitespace and no NUL, active,
      not yet verified, with the registered password. */
  lemma RegisteredUserAwaitsVerification(hasher: Hasher, id: nat, v: Registration, salt: nat)
    requires v.email != "" && Strip(v.email) == v.email && Nul !in v.email
    ensures var u := NewUser(hasher, id, v.email, Some(v.password), NameOnly(v.name), salt);
      && u.email != "" && Strip(u.email) == u.email && Nul !in u.email
      && CheckPassword(hasher, u.password, v.password) && u.isActive && !u.isVerified && !u.isStaff
  {
    NormalizeKeepsStripped(v.email);
    NormalizeAddsNoSymbol(Some(v.email), Nul);
    if '@' !in v.email {
      NormalizeWithoutAt(v.email);
    } else {
      NormalizeIsStripped(v.email);
    }
  }
}
