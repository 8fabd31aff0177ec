/** The resolvers of src/graphql-props.ts: an earlier form of
    src/graphql/graphql-props.ts that builds its errors with `formatError`
    of src/error.ts, lets a failed token verification escape as the
    library's own error, looks users up with `findOneOrFail`, and has no
    e-mail check in `login`.  Parameters as in `GraphqlProps`. */
module RootGraphqlProps {

  import opened Errors
  import opened Entity
  import opened Validation
  import opened Table
  import opened JsText
  import opened UserUseCases
  import GraphqlProps
  import Credentials

  /** The weak-password message as this file concatenates it: no space
      between "long" and "and". */
  const WeakPasswordJoined: string := "Password must be at least 7 characters long" + "and must contain at last one letter and one digit"

  /** `getVerification(context)`: a missing header gives a 401; the error
      of a failed `jwt.verify` is not caught and escapes as it is. */
  function GetVerification(auth: Option<string>, verify: string -> Credentials.Verdict, stack: string): (r: Result<string>)
    ensures !Truthy(auth) ==> r == Err(Http(FormatError(401, GraphqlProps.LoggedOut, Some(Cause("JsonWebTokenError", "", stack)))))
    ensures Truthy(auth) && verify(ReplaceFirst(auth.value, Bearer, "")).Refused? ==>
      r == Err(Raised(verify(ReplaceFirst(auth.value, Bearer, "")).error))
    ensures r.Ok? ==> Truthy(auth) && verify(ReplaceFirst(auth.value, Bearer, "")) == Credentials.Decoded(r.value)
    ensures r.Err? ==> (r.failure.Http? <==> !Truthy(auth))
  {
    if !Truthy(auth) then Err(Http(FormatError(401, GraphqlProps.LoggedOut, Some(Cause("JsonWebTokenError", "", stack)))))
    else
      var token := ReplaceFirst(auth.value, Bearer, "");
      match verify(token)
      case Decoded(subject) => Ok(subject)
      case Refused(error) => Err(Raised(error))
  }

  /** `Query.user(_, { id }, context)`: every failure of `findOneOrFail`,
      a database error included, becomes 404; the result is a copy of the
      row without its password. */
  method UserQuery(id: string, auth: Option<string>, verify: string -> Credentials.Verdict, stack: string, repo: Repository)
    returns (r: Result<PublicUser>)
    ensures GetVerification(auth, verify, stack).Err? ==> r == Err(GetVerification(auth, verify, stack).failure)
    ensures GetVerification(auth, verify, stack).Ok? ==>
      (r == Err(Http(FormatError(404, GraphqlProps.UserNotFound, None))) <==>
       repo.fault.Some? || forall j | 0 <= j < |repo.rows| :: repo.rows[j].id != id)
    ensures GetVerification(auth, verify, stack).Ok? ==> (r.Ok? || r == Err(Http(FormatError(404, GraphqlProps.UserNotFound, None))))
    ensures r.Ok? ==> r.value.id == id && exists j | 0 <= j < |repo.rows| :: Strip(repo.rows[j]) == r.value
  {
    var verification := GetVerification(auth, verify, stack);
    if verification.Err? {
      return Err(verification.failure);
    }
    var user := repo.FindOneOrFail(IdIs(id));
    if user.Err? {
      return Err(Http(FormatError(404, GraphqlProps.UserNotFound, None)));
    }
    // const { password, ...userReturn } = { ...user }
    return Ok(Strip(user.value));
  }

  /** `Mutation.login(_, { email, password, rememberMe })`: no format
      check; any failure of the lookup is 401, and so is a wrong password. */
  method Login(email: string, password: string, rememberMe: Option<bool>, repo: Repository) returns (r: Result<LoginResult>)
    ensures (repo.fault.Some? || FirstMatch(repo.rows, EmailIs(email)).None?) ==>
      r == Err(Http(FormatError(401, InvalidCredentials, None)))
    ensures (repo.fault.None? && FirstMatch(repo.rows, EmailIs(email)).Some?) ==>
      var u := FirstMatch(repo.rows, EmailIs(email)).value;
      r == if Credentials.Compare(password, u.password)
           then Ok(LoginResult(u, Credentials.Sign(u.id, rememberMe == Some(true))))
           else Err(Http(FormatError(401, InvalidCredentials, None)))
    ensures r.Ok? ==> r.value.user in repo.rows && r.value.user.email == email
    ensures r.Ok? ==> Credentials.Compare(password, r.value.user.password) && r.value.token.id == r.value.user.id
    ensures r.Err? ==> r.failure == Http(FormatError(401, InvalidCredentials, None))
  {
    var found := repo.FindOneOrFail(EmailIs(email));
    if found.Err? {
      return Err(Http(FormatError(401, InvalidCredentials, None)));
    }
    var user := found.value;
    if !Credentials.Compare(password, user.password) {
      return Err(Http(FormatError(401, InvalidCredentials, None)));
    }
    var token := Credentials.Sign(user.id, rememberMe == Some(true));
    return Ok(LoginResult(user, token));
  }

  /** `Mutation.createUser(_, { user }, context)`: the header, the e-mail,
      the password, the duplicate check on the e-mail as given, then the
      save of the lower-cased, hashed record. */
  method CreateUser(user: UserInput, auth: Option<string>, verify: string -> Credentials.Verdict, stack: string,
                    salt: Credentials.Salt, repo: Repository)
    returns (r: Result<User>)
    modifies repo`rows
    ensures GetVerification(auth, verify, stack).Err? ==> r == Err(GetVerification(auth, verify, stack).failure)
    ensures GetVerification(auth, verify, stack).Ok? && !IsValidEmail(user.email) ==> r == Err(Http(FormatError(400, InvalidEmail, None)))
    ensures (GetVerification(auth, verify, stack).Ok? && IsValidEmail(user.email) && IsWeak(user.password)) ==>
      r == Err(Http(FormatError(400, WeakPasswordJoined, None)))
    ensures (GetVerification(auth, verify, stack).Ok? && IsValidEmail(user.email) && !IsWeak(user.password) &&
             repo.fault.Some?) ==>
      r == Err(QueryFailed(repo.fault.value))
    ensures (GetVerification(auth, verify, stack).Ok? && IsValidEmail(user.email) && !IsWeak(user.password) &&
             repo.fault.None? && FirstMatch(old(repo.rows), EmailIs(user.email)).Some?) ==>
      r == Err(Http(FormatError(400, EmailInUse, None)))
    ensures (GetVerification(auth, verify, stack).Ok? && IsValidEmail(user.email) && !IsWeak(user.password) &&
             repo.fault.None? && FirstMatch(old(repo.rows), EmailIs(user.email)).None?) ==>
      r == Ok(WithId(GraphqlProps.NewUser(user, salt), FreshId(old(repo.rows)))) && repo.rows == old(repo.rows) + [r.value]
    ensures r.Err? ==> repo.rows == old(repo.rows)
  {
    var verification := GetVerification(auth, verify, stack);
    if verification.Err? {
      return Err(verification.failure);
    }
    if !IsValidEmail(user.email) {
      return Err(Http(FormatError(400, InvalidEmail, None)));
    }
    if IsWeak(user.password) {
      return Err(Http(FormatError(400, WeakPasswordJoined, None)));
    }
    var found := repo.FindOne(EmailIs(user.email));
    if found.Err? {
      return Err(found.failure);
    }
    if found.value.Some? {
      return Err(Http(FormatError(400, EmailInUse, None)));
    }
    r := repo.Save(GraphqlProps.NewUser(user, salt));
  }
}
