/** The resolvers of src/graphql/graphql-props.ts, which call the TypeORM
    repository directly.  The Authorization header is `auth` (absent or a
    string), `jwt.verify` with the server's secret is `verify`, and `stack`
    is the stack text of the `JsonWebTokenError('')` the missing-header
    error is built with.  The repository is the one `getRepository(User)`
    returns. */
module GraphqlProps {

  import opened Errors
  import opened Entity
  import opened Validation
  import opened Ordering
  import opened Table
  import opened JsText
  import opened UserUseCases
  import Credentials

  const LoggedOut: string := "You must be logged in"
  const InvalidToken: string := "Invalid token. Try loggin in again"
  const UserNotFound: string := "User not found"

  /** The error `getVerification` raises for a missing header. */
  function MissingHeader(stack: string): (f: Failure)
    ensures f.Http? && f.error.code == 401 && f.error.message == LoggedOut
    ensures f.error.additionalInfo == Some(stack)
  {
    assert "" + stack == stack;
    Http(NewHttpError(401, LoggedOut, Some(Cause("JsonWebTokenError", "", stack))))
  }

  /** `getVerification(context)`: a missing or empty header is refused;
      otherwise the first "Bearer " is cut out and the rest verified. */
  function GetVerification(auth: Option<string>, verify: string -> Credentials.Verdict, stack: string): (r: Result<string>)
    ensures !Truthy(auth) ==> r == Err(MissingHeader(stack))
    ensures r.Err? ==> r.failure.Http? && r.failure.error.code == 401 && r.failure.error.name == "HttpError"
    ensures Truthy(auth) && verify(ReplaceFirst(auth.value, Bearer, "")).Refused? ==>
      r == Err(Http(NewHttpError(401, InvalidToken, Some(verify(ReplaceFirst(auth.value, Bearer, "")).error))))
    ensures r.Ok? ==> Truthy(auth) && verify(ReplaceFirst(auth.value, Bearer, "")) == Credentials.Decoded(r.value)
    ensures Truthy(auth) && verify(ReplaceFirst(auth.value, Bearer, "")).Decoded? ==> r.Ok?
  {
    if !Truthy(auth) then Err(MissingHeader(stack))
    else
      var token := ReplaceFirst(auth.value, Bearer, "");
      match verify(token)
      case Decoded(subject) => Ok(subject)
      case Refused(error) => Err(Http(NewHttpError(401, InvalidToken, Some(error))))
  }

  /** A "Bearer <t>" header is accepted exactly when `t` verifies, and a
      header without the scheme is verified whole. */
  lemma BearerHeaders(t: string, other: string, verify: string -> Credentials.Verdict, stack: string)
    requires forall j :: !OccursAt(other, Bearer, j)
    ensures GetVerification(Some(Bearer + t), verify, stack).Ok? <==> verify(t).Decoded?
    ensures other != [] ==> (GetVerification(Some(other), verify, stack).Ok? <==> verify(other).Decoded?)
  {
    ReplaceBearer(t, other);
  }

  /** The record `createUser` saves: the e-mail lower-cased and the
      password hashed; the other fields as given. */
  function NewUser(user: UserInput, salt: Credentials.Salt): (u: UserInput)
    ensures u.name == user.name && u.birthDate == user.birthDate && u.cpf == user.cpf
    ensures u.email == ToLowerCase(user.email)
    ensures Credentials.Compare(user.password, u.password)
  {
    Credentials.CompareEncrypt(user.password, user.password, salt);
    UserInput(user.name, ToLowerCase(user.email), Credentials.Encrypt(user.password, salt), user.birthDate, user.cpf)
  }

  /** `Query.user(_, { id }, context)`: after the header check, a falsy
      id and an unknown id both give 404; a found row loses its password. */
  method UserQuery(id: string, auth: Option<string>, verify: string -> Credentials.Verdict, stack: string, repo: Repository)
    returns (r: Result<PublicUser>)
    ensures GetVerification(auth, verify, stack).Err? ==> r == Err(GetVerification(auth, verify, stack).failure)
    ensures GetVerification(auth, verify, stack).Ok? && id == [] ==> r == Err(HttpFailure(404, UserNotFound))
    ensures GetVerification(auth, verify, stack).Ok? && id != [] && repo.fault.Some? ==> r == Err(QueryFailed(repo.fault.value))
    ensures (GetVerification(auth, verify, stack).Ok? && id != [] && repo.fault.None?) ==>
      (r == Err(HttpFailure(404, UserNotFound)) <==> forall j | 0 <= j < |repo.rows| :: repo.rows[j].id != id)
    ensures (GetVerification(auth, verify, stack).Ok? && id != [] && repo.fault.None? &&
             FirstMatch(repo.rows, IdIs(id)).Some?) ==>
      r == Ok(Strip(FirstMatch(repo.rows, IdIs(id)).value))
    ensures r.Ok? ==> r.value.id == id && exists j | 0 <= j < |repo.rows| :: Strip(repo.rows[j]) == r.value
  {
    var verification := GetVerification(auth, verify, stack);
    if verification.Err? {
      return Err(verification.failure);
    }
    // `id && (await userRepository.findOne({ id }))`
    var user: Option<User> := None;
    if id != [] {
      var found := repo.FindOne(IdIs(id));
      if found.Err? {
        return Err(found.failure);
      }
      user := found.value;
    }
    if user.None? {
      return Err(HttpFailure(404, UserNotFound));
    }
    return Ok(Strip(user.value));
  }

  /** `Query.users(_, { count, skip }, context)`: `count || 10` and
      `skip || 0`, so an explicit 0 is replaced too, then one page. */
  method UsersQuery(count: Option<int>, skip: Option<int>, auth: Option<string>, verify: string -> Credentials.Verdict, stack: string,
               repo: Repository)
    returns (r: Result<UsersPage<User>>)
    ensures GetVerification(auth, verify, stack).Err? ==> r == Err(GetVerification(auth, verify, stack).failure)
    ensures (GetVerification(auth, verify, stack).Ok? && repo.fault.None? &&
             OrDefault(count, 10) >= 0 && OrDefault(skip, 0) >= 0) ==>
      r == Ok(UsersPage(Page(SortByName(repo.rows), OrDefault(count, 10), OrDefault(skip, 0)),
                        OrDefault(skip, 0) + OrDefault(count, 10) < |repo.rows|, OrDefault(skip, 0), |repo.rows|))
    ensures r.Ok? ==> (r.value.hasMore <==> r.value.skippedUsers + OrDefault(count, 10) < r.value.totalUsers)
    ensures r.Ok? ==> r.value.skippedUsers == OrDefault(skip, 0) && r.value.totalUsers == |repo.rows|
    ensures r.Ok? ==> |r.value.users| <= OrDefault(count, 10)
    ensures GetVerification(auth, verify, stack).Ok? && repo.fault.Some? ==> r == Err(QueryFailed(repo.fault.value))
    ensures (GetVerification(auth, verify, stack).Ok? && repo.fault.None? && OrDefault(skip, 0) < 0) ==>
      r == Err(QueryFailed("OFFSET must not be negative"))
    ensures (GetVerification(auth, verify, stack).Ok? && repo.fault.None? && OrDefault(skip, 0) >= 0 &&
             OrDefault(count, 10) < 0) ==>
      r == Err(QueryFailed("LIMIT must not be negative"))
    ensures r.Err? && GetVerification(auth, verify, stack).Ok? ==> r.failure.QueryFailed?
  {
    var verification := GetVerification(auth, verify, stack);
    if verification.Err? {
      return Err(verification.failure);
    }
    var take := OrDefault(count, 10);
    var offset := OrDefault(skip, 0);
    var found := repo.FindAndCount(take, offset);
    if found.Err? {
      return Err(found.failure);
    }
    var (users, usersCount) := found.value;
    PageBounds(SortByName(repo.rows), take, offset);
    var hasMore := HasMore(usersCount, offset, take);
    return Ok(UsersPage(users, hasMore, offset, usersCount));
  }

  /** `Mutation.login(_, { email, password, rememberMe })`: the e-mail
      format, the lookup, the password, then a token.  A database error is
      not caught. */
  method Login(email: string, password: string, rememberMe: Option<bool>, repo: Repository) returns (r: Result<LoginResult>)
    ensures !IsValidEmail(email) ==> r == Err(HttpFailure(400, InvalidEmail))
    ensures IsValidEmail(email) && repo.fault.Some? ==> r == Err(QueryFailed(repo.fault.value))
    ensures IsValidEmail(email) && repo.fault.None? && FirstMatch(repo.rows, EmailIs(email)).None? ==>
      r == Err(HttpFailure(401, InvalidCredentials))
    ensures (IsValidEmail(email) && repo.fault.None? && FirstMatch(repo.rows, EmailIs(email)).Some?) ==>
      var u := FirstMatch(repo.rows, EmailIs(email)).value;
      r == if Credentials.Compare(password, u.password)
           then Ok(LoginResult(u, Credentials.Sign(u.id, rememberMe == Some(true))))
           else Err(HttpFailure(401, InvalidCredentials))
    ensures r.Ok? ==> r.value.user in repo.rows && r.value.user.email == email
    ensures r.Ok? ==> Credentials.Compare(password, r.value.user.password) && r.value.token.id == r.value.user.id
  {
    if !IsValidEmail(email) {
      return Err(HttpFailure(400, InvalidEmail));
    }
    var found := repo.FindOne(EmailIs(email));
    if found.Err? {
      return Err(found.failure);
    }
    if found.value.None? {
      return Err(HttpFailure(401, InvalidCredentials));
    }
    var user := found.value.value;
    if !Credentials.Compare(password, user.password) {
      return Err(HttpFailure(401, InvalidCredentials));
    }
    var token := Credentials.Sign(user.id, rememberMe == Some(true));
    return Ok(LoginResult(user, token));
  }

  /** `Mutation.createUser(_, { user }, context)`: the header, the e-mail,
      the password, the duplicate check on the e-mail as given, then the
      save of the lower-cased, hashed record. */
  method CreateUser(user: UserInput, auth: Option<string>, verify: string -> Credentials.Verdict, stack: string,
                    salt: Credentials.Salt, repo: Repository)
    returns (r: Result<User>)
    modifies repo`rows
    ensures GetVerification(auth, verify, stack).Err? ==> r == Err(GetVerification(auth, verify, stack).failure)
    ensures GetVerification(auth, verify, stack).Ok? && !IsValidEmail(user.email) ==> r == Err(HttpFailure(400, InvalidEmail))
    ensures (GetVerification(auth, verify, stack).Ok? && IsValidEmail(user.email) && IsWeak(user.password)) ==>
      r == Err(HttpFailure(400, WeakPassword))
    ensures (GetVerification(auth, verify, stack).Ok? && IsValidEmail(user.email) && !IsWeak(user.password) &&
             repo.fault.Some?) ==>
      r == Err(QueryFailed(repo.fault.value))
    ensures (GetVerification(auth, verify, stack).Ok? && IsValidEmail(user.email) && !IsWeak(user.password) &&
             repo.fault.None? && FirstMatch(old(repo.rows), EmailIs(user.email)).Some?) ==>
      r == Err(HttpFailure(400, EmailInUse))
    ensures (GetVerification(auth, verify, stack).Ok? && IsValidEmail(user.email) && !IsWeak(user.password) &&
             repo.fault.None? && FirstMatch(old(repo.rows), EmailIs(user.email)).None?) ==>
      r == Ok(WithId(NewUser(user, salt), FreshId(old(repo.rows)))) && repo.rows == old(repo.rows) + [r.value]
    ensures r.Err? ==> repo.rows == old(repo.rows)
  {
    var verification := GetVerification(auth, verify, stack);
    if verification.Err? {
      return Err(verification.failure);
    }
    if !IsValidEmail(user.email) {
      return Err(HttpFailure(400, InvalidEmail));
    }
    if IsWeak(user.password) {
      return Err(HttpFailure(400, WeakPassword));
    }
    var found := repo.FindOne(EmailIs(user.email));
    if found.Err? {
      return Err(found.failure);
    }
    if found.value.Some? {
      return Err(HttpFailure(400, EmailInUse));
    }
    r := repo.Save(NewUser(user, salt));
  }

  /** No two rows hold the same e-mail. */
  predicate DistinctEmails(rows: seq<User>)
  {
    forall i, j | 0 <= i < j < |rows| :: rows[i].email != rows[j].email
  }

  /** `Mutation.createUser` with the duplicate check made on the e-mail
      as it will be stored, lower-cased: a table without repeated e-mails
      keeps that property. */
  method CorrectedCreateUser(user: UserInput, auth: Option<string>, verify: string -> Credentials.Verdict, stack: string,
                             salt: Credentials.Salt, repo: Repository)
    returns (r: Result<User>)
    modifies repo`rows
    ensures GetVerification(auth, verify, stack).Err? ==> r == Err(GetVerification(auth, verify, stack).failure)
    ensures GetVerification(auth, verify, stack).Ok? && !IsValidEmail(user.email) ==> r == Err(HttpFailure(400, InvalidEmail))
    ensures (GetVerification(auth, verify, stack).Ok? && IsValidEmail(user.email) && IsWeak(user.password)) ==>
      r == Err(HttpFailure(400, WeakPassword))
    ensures (GetVerification(auth, verify, stack).Ok? && IsValidEmail(user.email) && !IsWeak(user.password) &&
             repo.fault.Some?) ==>
      r == Err(QueryFailed(repo.fault.value))
    ensures (GetVerification(auth, verify, stack).Ok? && IsValidEmail(user.email) && !IsWeak(user.password) &&
             repo.fault.None? && FirstMatch(old(repo.rows), EmailIs(ToLowerCase(user.email))).Some?) ==>
      r == Err(HttpFailure(400, EmailInUse))
    ensures (GetVerification(auth, verify, stack).Ok? && IsValidEmail(user.email) && !IsWeak(user.password) &&
             repo.fault.None? && FirstMatch(old(repo.rows), EmailIs(ToLowerCase(user.email))).None?) ==>
      r == Ok(WithId(NewUser(user, salt), FreshId(old(repo.rows)))) && repo.rows == old(repo.rows) + [r.value]
    ensures r.Ok? ==> r == Ok(WithId(NewUser(user, salt), FreshId(old(repo.rows)))) && repo.rows == old(repo.rows) + [r.value]
    ensures r.Err? ==> repo.rows == old(repo.rows)
    ensures DistinctEmails(old(repo.rows)) ==> DistinctEmails(repo.rows)
  {
    var verification := GetVerification(auth, verify, stack);
    if verification.Err? {
      return Err(verification.failure);
    }
    if !IsValidEmail(user.email) {
      return Err(HttpFailure(400, InvalidEmail));
    }
    if IsWeak(user.password) {
      return Err(HttpFailure(400, WeakPassword));
    }
    var found := repo.FindOne(EmailIs(ToLowerCase(user.email)));
    if found.Err? {
      return Err(found.failure);
    }
    if found.value.Some? {
      return Err(HttpFailure(400, EmailInUse));
    }
    r := repo.Save(NewUser(user, salt));
  }
}
