/** The resolvers of src/graphQLSetup.ts, the earliest revision: the token
    is taken with `split('Bearer ')[1]`, every error is a plain `Error` or
    a `JsonWebTokenError`, passwords are stored and compared as plain text,
    and `createUser` checks nothing.  `getVerification` is declared there
    (as an `async` function) but no resolver of the file calls it, so
    `GetVerification` below guards neither `Login` nor `CreateUser`.
    `stack` is the stack text of the errors the code creates. */
module GraphQLSetup {

  import opened Errors
  import opened Entity
  import opened Table
  import opened JsText
  import opened UserUseCases
  import Credentials

  /** A `new jwt.JsonWebTokenError(message)`. */
  function TokenError(message: string, stack: string): (f: Failure)
    ensures f.Raised? && f.cause.name == "JsonWebTokenError" && f.cause.message == message
  {
    Raised(Cause("JsonWebTokenError", message, stack))
  }

  /** `getVerification(auth)`: no header, no text after the first
      "Bearer ", and a refused token each have their own message. */
  function GetVerification(auth: Option<string>, verify: string -> Credentials.Verdict, stack: string): (r: Result<string>)
    ensures !Truthy(auth) ==> r == Err(TokenError("you must be logged in!", stack))
    ensures Truthy(auth) && !Truthy(SplitSecond(auth.value, Bearer)) ==> r == Err(TokenError("you should provide a token!", stack))
    ensures (Truthy(auth) && Truthy(SplitSecond(auth.value, Bearer)) &&
             verify(SplitSecond(auth.value, Bearer).value).Refused?) ==>
      r == Err(TokenError("invalid token!", stack))
    ensures r.Ok? ==>
      Truthy(auth) && Truthy(SplitSecond(auth.value, Bearer)) &&
      verify(SplitSecond(auth.value, Bearer).value) == Credentials.Decoded(r.value)
  {
    if !Truthy(auth) then Err(TokenError("you must be logged in!", stack))
    else
      var token := SplitSecond(auth.value, Bearer);
      if !Truthy(token) then Err(TokenError("you should provide a token!", stack))
      else
        match verify(token.value)
        case Decoded(decoded) => Ok(decoded)
        case Refused(_) => Err(TokenError("invalid token!", stack))
  }

  /** "Bearer <t>" with a non-empty `t` free of a second scheme is
      verified as `t`; a header without the scheme is refused before
      verification, where the `replace` revisions would verify it whole. */
  lemma SchemeRequired(t: string, other: string, verify: string -> Credentials.Verdict, stack: string)
    requires t != [] && forall j :: !OccursAt(t, Bearer, j)
    requires other != [] && forall j :: !OccursAt(other, Bearer, j)
    ensures GetVerification(Some(Bearer + t), verify, stack).Ok? <==> verify(t).Decoded?
    ensures GetVerification(Some(other), verify, stack) == Err(TokenError("you should provide a token!", stack))
  {
    SplitBearer(t, other);
  }

  /** `Mutation.login(_, { email, password, rememberMe })`: any failure
      of the lookup and any password other than the stored text give
      'Invalid Credentials'. */
  method Login(email: string, password: string, rememberMe: Option<bool>, repo: Repository) returns (r: Result<LoginResult>)
    ensures (repo.fault.Some? || FirstMatch(repo.rows, EmailIs(email)).None?) ==> r == Err(PlainError(InvalidCredentials))
    ensures (repo.fault.None? && FirstMatch(repo.rows, EmailIs(email)).Some?) ==>
      var u := FirstMatch(repo.rows, EmailIs(email)).value;
      r == if password == u.password
           then Ok(LoginResult(u, Credentials.Sign(u.id, rememberMe == Some(true))))
           else Err(PlainError(InvalidCredentials))
    ensures r.Ok? ==> r.value.user in repo.rows && r.value.user.email == email && r.value.user.password == password
    ensures r.Ok? ==> r.value.token.id == r.value.user.id
  {
    var found := repo.FindOneOrFail(EmailIs(email));
    if found.Err? {
      return Err(PlainError(InvalidCredentials));
    }
    var user := found.value;
    if password != user.password {
      return Err(PlainError(InvalidCredentials));
    }
    var token := Credentials.Sign(user.id, rememberMe == Some(true));
    return Ok(LoginResult(user, token));
  }

  /** The record `createUser` saves: the e-mail lower-cased, the rest,
      the password included, as given. */
  function PlainUser(user: UserInput): (u: UserInput)
    ensures u.email == ToLowerCase(user.email) && u.password == user.password
    ensures u.name == user.name && u.birthDate == user.birthDate && u.cpf == user.cpf
  {
    user.(email := ToLowerCase(user.email))
  }

  /** `Mutation.createUser(_, { user })`: no header, e-mail, password or
      duplicate check; the save alone can fail. */
  method CreateUser(user: UserInput, repo: Repository) returns (r: Result<User>)
    modifies repo`rows
    ensures repo.fault.Some? ==> r == Err(QueryFailed(repo.fault.value)) && repo.rows == old(repo.rows)
    ensures repo.fault.None? ==> r == Ok(WithId(PlainUser(user), FreshId(old(repo.rows)))) && repo.rows == old(repo.rows) + [r.value]
  {
    r := repo.Save(PlainUser(user));
  }
}
