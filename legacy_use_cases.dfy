/** The older use-cases directly under src/business/rule/.  They run the
    same checks as the newer ones, with two differences: `CreateUserUseCase`
    hashes the password itself before handing it to
    `UserDbDataSource.insert`, which hashes it again, and `UserUseCase`
    strips the password from the row it returns. */
module LegacyUseCases {

  import opened Errors
  import opened Entity
  import opened Validation
  import opened Ordering
  import opened Table
  import opened DataSource
  import opened UserUseCases
  import Credentials

  class CreateUserUseCase {
    const dataSource: UserDbDataSource

    constructor (dataSource: UserDbDataSource)
      ensures this.dataSource == dataSource
    {
      this.dataSource := dataSource;
    }

    /** `exec(input)`: the same checks as the newer revision, then
        `insert({ ...input, password: encrypt(input.password) })`.  `first`
        is the salt of this `encrypt`, `second` that of the data source's. */
    method Exec(input: UserInput, first: Credentials.Salt, second: Credentials.Salt) returns (r: Result<User>)
      modifies dataSource.dbRepository
      ensures dataSource.dbRepository.fault == old(dataSource.dbRepository.fault)
      ensures !IsValidEmail(input.email) ==> r == Err(HttpFailure(400, InvalidEmail))
      ensures IsValidEmail(input.email) && IsWeak(input.password) ==> r == Err(HttpFailure(400, WeakPassword))
      ensures IsValidEmail(input.email) && !IsWeak(input.password) && old(dataSource.dbRepository.fault).Some? ==>
        r == Err(QueryFailed(old(dataSource.dbRepository.fault).value))
      ensures (IsValidEmail(input.email) && !IsWeak(input.password) && old(dataSource.dbRepository.fault).None? &&
               FirstMatch(old(dataSource.dbRepository.rows), EmailIs(input.email)).Some?) ==>
        r == Err(HttpFailure(400, EmailInUse))
      ensures (IsValidEmail(input.email) && !IsWeak(input.password) && old(dataSource.dbRepository.fault).None? &&
               FirstMatch(old(dataSource.dbRepository.rows), EmailIs(input.email)).None?) ==>
        r == Ok(WithId(Hashed(input.(password := Credentials.Encrypt(input.password, first)), second),
                       FreshId(old(dataSource.dbRepository.rows)))) &&
        dataSource.dbRepository.rows == old(dataSource.dbRepository.rows) + [r.value]
      ensures r.Err? ==> dataSource.dbRepository.rows == old(dataSource.dbRepository.rows)
      ensures r.Ok? ==> r.value.password == Credentials.Encrypt(Credentials.Encrypt(input.password, first), second)
      ensures r.Ok? ==> !Credentials.Compare(input.password, r.value.password)
    {
      if !IsValidEmail(input.email) {
        return Err(HttpFailure(400, InvalidEmail));
      }
      if IsWeak(input.password) {
        return Err(HttpFailure(400, WeakPassword));
      }
      var caught: Failure;
      var found := dataSource.FindOne(EmailIs(input.email));
      if found.Ok? {
        caught := HttpFailure(400, EmailInUse);
      } else {
        caught := found.failure;
      }
      if !IsNotFound(caught) {
        return Err(caught);
      }
      var password := Credentials.Encrypt(input.password, first);
      r := dataSource.Insert(input.(password := password), second);
      if r.Ok? {
        Credentials.DoubleDigestRejectsPassword(input.password, first, second);
      }
    }
  }

  class LoginUseCase {
    const dataSource: UserDbDataSource

    constructor (dataSource: UserDbDataSource)
      ensures this.dataSource == dataSource
    {
      this.dataSource := dataSource;
    }

    /** `exec(input)`: the e-mail format, the lookup, the password, then a
        token; the same sequence as the newer revision. */
    method Exec(input: LoginInput) returns (r: Result<LoginResult>)
      ensures !IsValidEmail(input.email) ==> r == Err(HttpFailure(400, InvalidEmail))
      ensures IsValidEmail(input.email) && dataSource.dbRepository.fault.Some? ==> r == Err(UndefinedProperty("password"))
      ensures (IsValidEmail(input.email) && dataSource.dbRepository.fault.None? &&
               FirstMatch(dataSource.dbRepository.rows, EmailIs(input.email)).None?) ==>
        r == Err(HttpFailure(401, InvalidCredentials))
      ensures (IsValidEmail(input.email) && dataSource.dbRepository.fault.None? &&
               FirstMatch(dataSource.dbRepository.rows, EmailIs(input.email)).Some?) ==>
        var u := FirstMatch(dataSource.dbRepository.rows, EmailIs(input.email)).value;
        r == if Credentials.Compare(input.password, u.password)
             then Ok(LoginResult(u, Credentials.Sign(u.id, RememberMe(input))))
             else Err(HttpFailure(401, InvalidCredentials))
      ensures r.Ok? ==> r.value.user in dataSource.dbRepository.rows && Credentials.Compare(input.password, r.value.user.password)
      ensures r.Ok? ==> r.value.token.id == r.value.user.id && r.value.token.expiresIn == Credentials.ExpiryFor(RememberMe(input))
    {
      if !IsValidEmail(input.email) {
        return Err(HttpFailure(400, InvalidEmail));
      }
      var user: Option<User> := None;
      var found := dataSource.FindOne(EmailIs(input.email));
      if found.Ok? {
        user := Some(found.value);
      } else if IsNotFound(found.failure) {
        return Err(HttpFailure(401, InvalidCredentials));
      }
      if user.None? {
        return Err(UndefinedProperty("password"));
      }
      if !Credentials.Compare(input.password, user.value.password) {
        return Err(HttpFailure(401, InvalidCredentials));
      }
      var token := Credentials.Sign(user.value.id, RememberMe(input));
      return Ok(LoginResult(user.value, token));
    }
  }

  class UserUseCase {
    const dataSource: UserDbDataSource

    constructor (dataSource: UserDbDataSource)
      ensures this.dataSource == dataSource
    {
      this.dataSource := dataSource;
    }

    /** `exec(id)`: an empty id is refused; otherwise the stored row with
        its password deleted from the fetched copy. */
    method Exec(id: string) returns (r: Result<PublicUser>)
      ensures id == [] ==> r == Err(HttpFailure(400, BadUserId))
      ensures id != [] && dataSource.dbRepository.fault.Some? ==> r == Err(QueryFailed(dataSource.dbRepository.fault.value))
      ensures id != [] && dataSource.dbRepository.fault.None? ==>
        (r == Err(NotFound()) <==> forall j | 0 <= j < |dataSource.dbRepository.rows| :: dataSource.dbRepository.rows[j].id != id)
      ensures id != [] && dataSource.dbRepository.fault.None? && FirstMatch(dataSource.dbRepository.rows, IdIs(id)).Some? ==>
        r == Ok(Strip(FirstMatch(dataSource.dbRepository.rows, IdIs(id)).value))
      ensures r.Ok? ==> r.value.id == id
      ensures r.Ok? ==> exists j | 0 <= j < |dataSource.dbRepository.rows| :: Strip(dataSource.dbRepository.rows[j]) == r.value
    {
      if |id| == 0 {
        return Err(HttpFailure(400, BadUserId));
      }
      var user := dataSource.FindOne(IdIs(id));
      if user.Err? {
        return Err(user.failure);
      }
      return Ok(Strip(user.value));
    }
  }

  class UsersUseCase {
    const dataSource: UserDbDataSource

    constructor (dataSource: UserDbDataSource)
      ensures this.dataSource == dataSource
    {
      this.dataSource := dataSource;
    }

    /** `exec({ count, skip })`: the same page and figures as the newer
        `GetUsersUseCase`. */
    method Exec(input: GetUsersInput) returns (r: Result<UsersPage<User>>)
      ensures dataSource.dbRepository.fault.Some? ==> r == Err(QueryFailed(dataSource.dbRepository.fault.value))
      ensures dataSource.dbRepository.fault.None? && (input.count < 0 || input.skip < 0) ==> r.Err? && r.failure.QueryFailed?
      ensures dataSource.dbRepository.fault.None? && input.skip < 0 ==>
        r == Err(QueryFailed("OFFSET must not be negative"))
      ensures dataSource.dbRepository.fault.None? && input.skip >= 0 && input.count < 0 ==>
        r == Err(QueryFailed("LIMIT must not be negative"))
      ensures dataSource.dbRepository.fault.None? && input.count >= 0 && input.skip >= 0 ==>
        r.Ok? && r.value.users == Page(SortByName(dataSource.dbRepository.rows), input.count, input.skip)
      ensures r.Ok? ==> (r.value.hasMore <==> input.skip + input.count < |dataSource.dbRepository.rows|)
      ensures r.Ok? ==> r.value.skippedUsers == input.skip && r.value.totalUsers == |dataSource.dbRepository.rows|
      ensures r.Ok? && input.count > 0 ==> |r.value.users| <= input.count
    {
      var found := dataSource.FindMany(input.count, input.skip);
      if found.Err? {
        return Err(found.failure);
      }
      var (users, usersCount) := found.value;
      PageBounds(SortByName(dataSource.dbRepository.rows), input.count, input.skip);
      var hasMore := HasMore(usersCount, input.skip, input.count);
      return Ok(UsersPage(users, hasMore, input.skip, usersCount));
    }
  }
}
