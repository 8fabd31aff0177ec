/** The type-graphql `UserResolver` of src/graphql/user.resolver.ts.  It
    keeps the repository in a field and runs the same checks as the
    resolvers of src/graphql/graphql-props.ts, except that `users` takes its
    defaults from the argument declarations, which apply only to an absent
    argument. */
module TypeGraphqlResolver {

  import opened Errors
  import opened Entity
  import opened Validation
  import opened Ordering
  import opened Table
  import opened JsText
  import opened UserUseCases
  import GraphqlProps
  import Credentials

  class UserResolver {
    const userRepository: Repository

    constructor (userRepository: Repository)
      ensures this.userRepository == userRepository
    {
      this.userRepository := userRepository;
    }

    /** `getVerification(context)`: the same steps and messages as the
        function of src/graphql/graphql-props.ts. */
    function GetVerification(auth: Option<string>, verify: string -> Credentials.Verdict, stack: string): (r: Result<string>)
      ensures !Truthy(auth) ==> r == Err(GraphqlProps.MissingHeader(stack))
      ensures r.Err? ==> r.failure.Http? && r.failure.error.code == 401
      ensures r.Ok? ==> Truthy(auth) && verify(ReplaceFirst(auth.value, Bearer, "")) == Credentials.Decoded(r.value)
      ensures Truthy(auth) && verify(ReplaceFirst(auth.value, Bearer, "")).Decoded? ==> r.Ok?
    {
      if !Truthy(auth) then Err(GraphqlProps.MissingHeader(stack))
      else
        var token := ReplaceFirst(auth.value, Bearer, "");
        match verify(token)
        case Decoded(subject) => Ok(subject)
        case Refused(error) => Err(Http(NewHttpError(401, GraphqlProps.InvalidToken, Some(error))))
    }

    /** `login(email, password, rememberMe)`. */
    method Login(email: string, password: string, rememberMe: Option<bool>) returns (r: Result<LoginResult>)
      ensures !IsValidEmail(email) ==> r == Err(HttpFailure(400, InvalidEmail))
      ensures IsValidEmail(email) && userRepository.fault.Some? ==> r == Err(QueryFailed(userRepository.fault.value))
      ensures (IsValidEmail(email) && userRepository.fault.None? &&
               FirstMatch(userRepository.rows, EmailIs(email)).None?) ==>
        r == Err(HttpFailure(401, InvalidCredentials))
      ensures (IsValidEmail(email) && userRepository.fault.None? &&
               FirstMatch(userRepository.rows, EmailIs(email)).Some?) ==>
        var u := FirstMatch(userRepository.rows, EmailIs(email)).value;
        r == if Credentials.Compare(password, u.password)
             then Ok(LoginResult(u, Credentials.Sign(u.id, rememberMe == Some(true))))
             else Err(HttpFailure(401, InvalidCredentials))
      ensures r.Ok? ==> r.value.user in userRepository.rows && r.value.user.email == email
      ensures r.Ok? ==> Credentials.Compare(password, r.value.user.password) && r.value.token.id == r.value.user.id
    {
      if !IsValidEmail(email) {
        return Err(HttpFailure(400, InvalidEmail));
      }
      var found := userRepository.FindOne(EmailIs(email));
      if found.Err? {
        return Err(found.failure);
      }
      if found.value.None? {
        return Err(HttpFailure(401, InvalidCredentials));
      }
      var user := found.value.value;
      if !Credentials.Compare(password, user.password) {
        return Err(HttpFailure(401, InvalidCredentials));
      }
      var token := Credentials.Sign(user.id, rememberMe == Some(true));
      return Ok(LoginResult(user, token));
    }

    /** `user(id, context)`: a falsy id and an unknown id both give 404; a
        found row loses its password. */
    method UserQuery(id: string, auth: Option<string>, verify: string -> Credentials.Verdict, stack: string)
      returns (r: Result<PublicUser>)
      ensures GetVerification(auth, verify, stack).Err? ==> r == Err(GetVerification(auth, verify, stack).failure)
      ensures GetVerification(auth, verify, stack).Ok? && id == [] ==> r == Err(HttpFailure(404, GraphqlProps.UserNotFound))
      ensures (GetVerification(auth, verify, stack).Ok? && id != [] && userRepository.fault.Some?) ==>
        r == Err(QueryFailed(userRepository.fault.value))
      ensures (GetVerification(auth, verify, stack).Ok? && id != [] && userRepository.fault.None?) ==>
        (r == Err(HttpFailure(404, GraphqlProps.UserNotFound)) <==>
         forall j | 0 <= j < |userRepository.rows| :: userRepository.rows[j].id != id)
      ensures (GetVerification(auth, verify, stack).Ok? && id != [] && userRepository.fault.None? &&
               FirstMatch(userRepository.rows, IdIs(id)).Some?) ==>
        r == Ok(Strip(FirstMatch(userRepository.rows, IdIs(id)).value))
      ensures r.Ok? ==> r.value.id == id && exists j | 0 <= j < |userRepository.rows| :: Strip(userRepository.rows[j]) == r.value
    {
      var verification := GetVerification(auth, verify, stack);
      if verification.Err? {
        return Err(verification.failure);
      }
      var user: Option<User> := None;
      if id != [] {
        var found := userRepository.FindOne(IdIs(id));
        if found.Err? {
          return Err(found.failure);
        }
        user := found.value;
      }
      if user.None? {
        return Err(HttpFailure(404, GraphqlProps.UserNotFound));
      }
      return Ok(Strip(user.value));
    }

    /** `users(count, skip, context)`: the declared defaults 10 and 0 fill
        in only an absent argument, so an explicit `count: 0` reaches
        `take` and, being dropped there, lifts the page limit. */
    method UsersQuery(count: Option<int>, skip: Option<int>, auth: Option<string>, verify: string -> Credentials.Verdict,
                      stack: string)
      returns (r: Result<UsersPage<User>>)
      ensures GetVerification(auth, verify, stack).Err? ==> r == Err(GetVerification(auth, verify, stack).failure)
      ensures (GetVerification(auth, verify, stack).Ok? && userRepository.fault.None? &&
               GetUsersArgs(count, skip).count >= 0 && GetUsersArgs(count, skip).skip >= 0) ==>
        r.Ok? && r.value.users == Page(SortByName(userRepository.rows), GetUsersArgs(count, skip).count, GetUsersArgs(count, skip).skip)
      ensures r.Ok? ==> (r.value.hasMore <==> GetUsersArgs(count, skip).skip + GetUsersArgs(count, skip).count < |userRepository.rows|)
      ensures r.Ok? ==> r.value.skippedUsers == GetUsersArgs(count, skip).skip && r.value.totalUsers == |userRepository.rows|
      ensures r.Ok? ==> r.value.skippedUsers >= 0 && GetUsersArgs(count, skip).count >= 0
      ensures (r.Ok? && count == Some(0)) ==>
        r.value.users == Page(SortByName(userRepository.rows), 0, r.value.skippedUsers) &&
        (r.value.hasMore <==> r.value.skippedUsers < r.value.totalUsers)
      ensures GetVerification(auth, verify, stack).Ok? && userRepository.fault.Some? ==>
        r == Err(QueryFailed(userRepository.fault.value))
      ensures (GetVerification(auth, verify, stack).Ok? && userRepository.fault.None? &&
               GetUsersArgs(count, skip).skip < 0) ==>
        r == Err(QueryFailed("OFFSET must not be negative"))
      ensures (GetVerification(auth, verify, stack).Ok? && userRepository.fault.None? &&
               GetUsersArgs(count, skip).skip >= 0 && GetUsersArgs(count, skip).count < 0) ==>
        r == Err(QueryFailed("LIMIT must not be negative"))
      ensures r.Err? && GetVerification(auth, verify, stack).Ok? ==> r.failure.QueryFailed?
    {
      var verification := GetVerification(auth, verify, stack);
      if verification.Err? {
        return Err(verification.failure);
      }
      var args := GetUsersArgs(count, skip);
      var found := userRepository.FindAndCount(args.count, args.skip);
      if found.Err? {
        return Err(found.failure);
      }
      var (users, usersCount) := found.value;
      var hasMore := HasMore(usersCount, args.skip, args.count);
      return Ok(UsersPage(users, hasMore, args.skip, usersCount));
    }

    /** `createUser(user, context)`: the header, the e-mail, the password,
        the duplicate check on the e-mail as given, then the save of the
        lower-cased, hashed record. */
    method CreateUser(user: UserInput, auth: Option<string>, verify: string -> Credentials.Verdict, stack: string,
                      salt: Credentials.Salt)
      returns (r: Result<User>)
      modifies userRepository`rows
      ensures GetVerification(auth, verify, stack).Err? ==> r == Err(GetVerification(auth, verify, stack).failure)
      ensures (GetVerification(auth, verify, stack).Ok? && !IsValidEmail(user.email)) ==> r == Err(HttpFailure(400, InvalidEmail))
      ensures (GetVerification(auth, verify, stack).Ok? && IsValidEmail(user.email) && IsWeak(user.password)) ==>
        r == Err(HttpFailure(400, WeakPassword))
      ensures (GetVerification(auth, verify, stack).Ok? && IsValidEmail(user.email) && !IsWeak(user.password) &&
               userRepository.fault.Some?) ==>
        r == Err(QueryFailed(userRepository.fault.value))
      ensures (GetVerification(auth, verify, stack).Ok? && IsValidEmail(user.email) && !IsWeak(user.password) &&
               userRepository.fault.None? && FirstMatch(old(userRepository.rows), EmailIs(user.email)).Some?) ==>
        r == Err(HttpFailure(400, EmailInUse))
      ensures (GetVerification(auth, verify, stack).Ok? && IsValidEmail(user.email) && !IsWeak(user.password) &&
               userRepository.fault.None? && FirstMatch(old(userRepository.rows), EmailIs(user.email)).None?) ==>
        r == Ok(WithId(GraphqlProps.NewUser(user, salt), FreshId(old(userRepository.rows)))) &&
        userRepository.rows == old(userRepository.rows) + [r.value]
      ensures r.Err? ==> userRepository.rows == old(userRepository.rows)
    {
      var verification := GetVerification(auth, verify, stack);
      if verification.Err? {
        return Err(verification.failure);
      }
      if !IsValidEmail(user.email) {
        return Err(HttpFailure(400, InvalidEmail));
      }
      if IsWeak(user.password) {
        return Err(HttpFailure(400, WeakPassword));
      }
      var found := userRepository.FindOne(EmailIs(user.email));
      if found.Err? {
        return Err(found.failure);
      }
      if found.value.Some? {
        return Err(HttpFailure(400, EmailInUse));
      }
      r := userRepository.Save(GraphqlProps.NewUser(user, salt));
    }
  }
}
