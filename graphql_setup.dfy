/** The resolvers of src/graphql-setup.ts.  Its errors come from
    `formatError` of error.ts (class name `httpError`) or are plain
    `Error`s and the library's `JsonWebTokenError`s, without an HTTP code.
    Its `login` calls `compareSync` with the arguments swapped and refuses
    when the call succeeds; `CorrectedLogin` is the check the other
    revisions make.  Parameters as in `GraphqlProps`. */
module GraphqlSetup {

  import opened Errors
  import opened Entity
  import opened Validation
  import opened Table
  import opened JsText
  import opened UserUseCases
  import GraphqlProps
  import Credentials

  /** The weak-password message: the string literal continues over a
      line break, so the indentation of its second line is part of it. */
  const WeakPasswordSpaced: string :=
    "Password must be at least 7 characters long " + "                " + "and must contain at last one letter and one digit"

  /** `getVerification(context)`: a missing header throws a
      `JsonWebTokenError`; a failed verification escapes as it is. */
  function GetVerification(auth: Option<string>, verify: string -> Credentials.Verdict, stack: string): (r: Result<string>)
    ensures !Truthy(auth) ==> r == Err(Raised(Cause("JsonWebTokenError", "You must be logged in!", stack)))
    ensures Truthy(auth) && verify(ReplaceFirst(auth.value, Bearer, "")).Refused? ==>
      r == Err(Raised(verify(ReplaceFirst(auth.value, Bearer, "")).error))
    ensures r.Ok? ==> Truthy(auth) && verify(ReplaceFirst(auth.value, Bearer, "")) == Credentials.Decoded(r.value)
    ensures r.Err? ==> r.failure.Raised?
  {
    if !Truthy(auth) then Err(Raised(Cause("JsonWebTokenError", "You must be logged in!", stack)))
    else
      var token := ReplaceFirst(auth.value, Bearer, "");
      match verify(token)
      case Decoded(subject) => Ok(subject)
      case Refused(error) => Err(Raised(error))
  }

  /** `verifyEmail(email)`: returns normally exactly for an e-mail of the
      accepted shape, and throws a 400 otherwise. */
  function VerifyEmail(email: string): (r: Result<()>)
    ensures r.Ok? <==> EmailShape(email)
    ensures r.Err? ==> r.failure == Http(FormatLowerError(400, InvalidEmail, None)) && r.failure.error.name == "httpError"
  {
    EmailPatternIsShape(email);
    if !IsValidEmail(email) then Err(Http(FormatLowerError(400, InvalidEmail, None))) else Ok(())
  }

  /** `Mutation.login` as written: the e-mail, the lookup (any failure is
      401), then `if (compareSync(user.password, password))` refuses and
      every other case gets a token.  Since a password shorter than a
      digest never passes as a digest, every such password logs in, right
      or wrong. */
  method Login(email: string, password: string, rememberMe: Option<bool>, repo: Repository) returns (r: Result<LoginResult>)
    ensures !IsValidEmail(email) ==> r == Err(Http(FormatLowerError(400, InvalidEmail, None)))
    ensures (IsValidEmail(email) && (repo.fault.Some? || FirstMatch(repo.rows, EmailIs(email)).None?)) ==>
      r == Err(Http(FormatLowerError(401, InvalidCredentials, None)))
    ensures (IsValidEmail(email) && repo.fault.None? && FirstMatch(repo.rows, EmailIs(email)).Some?) ==>
      var u := FirstMatch(repo.rows, EmailIs(email)).value;
      r == if Credentials.Compare(u.password, password)
           then Err(Http(FormatLowerError(401, InvalidCredentials, None)))
           else Ok(LoginResult(u, Credentials.Sign(u.id, rememberMe == Some(true))))
    ensures (IsValidEmail(email) && repo.fault.None? && FirstMatch(repo.rows, EmailIs(email)).Some? &&
             |password| < Credentials.PrefixLength) ==>
      r.Ok? && r.value.user == FirstMatch(repo.rows, EmailIs(email)).value
  {
    var checked := VerifyEmail(email);
    if checked.Err? {
      return Err(checked.failure);
    }
    var found := repo.FindOneOrFail(EmailIs(email));
    if found.Err? {
      return Err(Http(FormatLowerError(401, InvalidCredentials, None)));
    }
    var user := found.value;
    if Credentials.Compare(user.password, password) {
      return Err(Http(FormatLowerError(401, InvalidCredentials, None)));
    }
    var token := Credentials.Sign(user.id, rememberMe == Some(true));
    return Ok(LoginResult(user, token));
  }

  /** Against the digest of "Supersafe", the check as written refuses
      neither the password itself nor a wrong one, while the intended
      check accepts exactly the password. */
  lemma SwappedCheckAdmitsWrongPassword(salt: Credentials.Salt)
    ensures var d := Credentials.Encrypt("Supersafe", salt);
      !Credentials.Compare(d, "Supersafe") && !Credentials.Compare(d, "wrong") &&
      Credentials.Compare("Supersafe", d) && !Credentials.Compare("wrong", d)
  {
    var d := Credentials.Encrypt("Supersafe", salt);
    Credentials.SwappedCompareFails(d, "Supersafe");
    Credentials.SwappedCompareFails(d, "wrong");
    Credentials.CompareEncrypt("Supersafe", "Supersafe", salt);
    Credentials.CompareEncrypt("wrong", "Supersafe", salt);
  }

  /** `Mutation.login` with the check of the other revisions,
      `if (!compareSync(password, user.password))`: a token is issued only
      for the password the stored digest was made from. */
  method CorrectedLogin(email: string, password: string, rememberMe: Option<bool>, repo: Repository) returns (r: Result<LoginResult>)
    ensures !IsValidEmail(email) ==> r == Err(Http(FormatLowerError(400, InvalidEmail, None)))
    ensures (IsValidEmail(email) && (repo.fault.Some? || FirstMatch(repo.rows, EmailIs(email)).None?)) ==>
      r == Err(Http(FormatLowerError(401, InvalidCredentials, None)))
    ensures (IsValidEmail(email) && repo.fault.None? && FirstMatch(repo.rows, EmailIs(email)).Some?) ==>
      var u := FirstMatch(repo.rows, EmailIs(email)).value;
      r == if Credentials.Compare(password, u.password)
           then Ok(LoginResult(u, Credentials.Sign(u.id, rememberMe == Some(true))))
           else Err(Http(FormatLowerError(401, InvalidCredentials, None)))
    ensures r.Ok? ==> r.value.user in repo.rows && Credentials.Compare(password, r.value.user.password)
    ensures r.Ok? ==> forall salt: Credentials.Salt, p | r.value.user.password == Credentials.Encrypt(p, salt) :: p == password
  {
    var checked := VerifyEmail(email);
    if checked.Err? {
      return Err(checked.failure);
    }
    var found := repo.FindOneOrFail(EmailIs(email));
    if found.Err? {
      return Err(Http(FormatLowerError(401, InvalidCredentials, None)));
    }
    var user := found.value;
    if !Credentials.Compare(password, user.password) {
      return Err(Http(FormatLowerError(401, InvalidCredentials, None)));
    }
    forall salt: Credentials.Salt, p | user.password == Credentials.Encrypt(p, salt)
      ensures p == password
    {
      Credentials.CompareEncrypt(password, p, salt);
    }
    var token := Credentials.Sign(user.id, rememberMe == Some(true));
    return Ok(LoginResult(user, token));
  }

  /** `Mutation.createUser(_, { user }, context)`: the header, then the
      password and the duplicate check with plain `Error`s; there is no
      e-mail check.  The record saved is lower-cased and hashed. */
  method CreateUser(user: UserInput, auth: Option<string>, verify: string -> Credentials.Verdict, stack: string,
                    salt: Credentials.Salt, repo: Repository)
    returns (r: Result<User>)
    modifies repo`rows
    ensures GetVerification(auth, verify, stack).Err? ==> r == Err(GetVerification(auth, verify, stack).failure)
    ensures GetVerification(auth, verify, stack).Ok? && IsWeak(user.password) ==> r == Err(PlainError(WeakPasswordSpaced))
    ensures (GetVerification(auth, verify, stack).Ok? && !IsWeak(user.password) && repo.fault.Some?) ==>
      r == Err(QueryFailed(repo.fault.value))
    ensures (GetVerification(auth, verify, stack).Ok? && !IsWeak(user.password) && repo.fault.None? &&
             FirstMatch(old(repo.rows), EmailIs(user.email)).Some?) ==>
      r == Err(PlainError(EmailInUse))
    ensures (GetVerification(auth, verify, stack).Ok? && !IsWeak(user.password) && repo.fault.None? &&
             FirstMatch(old(repo.rows), EmailIs(user.email)).None?) ==>
      r == Ok(WithId(GraphqlProps.NewUser(user, salt), FreshId(old(repo.rows)))) && repo.rows == old(repo.rows) + [r.value]
    ensures r.Err? ==> repo.rows == old(repo.rows) && !r.failure.Http?
  {
    var verification := GetVerification(auth, verify, stack);
    if verification.Err? {
      return Err(verification.failure);
    }
    if IsWeak(user.password) {
      return Err(PlainError(WeakPasswordSpaced));
    }
    var found := repo.FindOne(EmailIs(user.email));
    if found.Err? {
      return Err(found.failure);
    }
    if found.value.Some? {
      return Err(PlainError(EmailInUse));
    }
    r := repo.Save(GraphqlProps.NewUser(user, salt));
  }
}
