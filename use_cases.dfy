/** The use-cases of src/business/rule/user/: each holds the
    `UserDbDataSource` it was built with and runs one request through it.
    A thrown error is an `Err`; a rejected database call surfaces as the
    failure the data source reports. */
module UserUseCases {

  import opened Errors
  import opened Entity
  import opened Validation
  import opened Ordering
  import opened Table
  import opened DataSource
  import Credentials

  const InvalidEmail: string := "Invalid email"
  const WeakPassword: string := "Password must be at least 7 characters long and must contain at last one letter and one digit"
  const EmailInUse: string := "Email already in use"
  const InvalidCredentials: string := "Invalid Credentials"
  const BadUserId: string := "Bad user id"

  /** `hasMore = usersCount - skip - count > 0`: rows remain after the
      page exactly when the page ends before the table does. */
  function HasMore(total: int, skip: int, count: int): (more: bool)
    ensures more <==> skip + count < total
  {
    total - skip - count > 0
  }

  class CreateUserUseCase {
    const dataSource: UserDbDataSource

    constructor (dataSource: UserDbDataSource)
      ensures this.dataSource == dataSource
    {
      this.dataSource := dataSource;
    }

    /** `exec(input)`: the e-mail, then the password, then the duplicate
        check, then the insert, which hashes the password.  The salt the
        insert draws is a parameter. */
    method Exec(input: UserInput, salt: Credentials.Salt) returns (r: Result<User>)
      modifies dataSource.dbRepository
      ensures dataSource.dbRepository.fault == old(dataSource.dbRepository.fault)
      ensures !IsValidEmail(input.email) ==> r == Err(HttpFailure(400, InvalidEmail))
      ensures IsValidEmail(input.email) && IsWeak(input.password) ==> r == Err(HttpFailure(400, WeakPassword))
      ensures IsValidEmail(input.email) && !IsWeak(input.password) && old(dataSource.dbRepository.fault).Some? ==>
        r == Err(QueryFailed(old(dataSource.dbRepository.fault).value))
      ensures (IsValidEmail(input.email) && !IsWeak(input.password) && old(dataSource.dbRepository.fault).None? &&
         FirstMatch(old(dataSource.dbRepository.rows), EmailIs(input.email)).Some?) ==>
        r == Err(HttpFailure(400, EmailInUse))
      ensures (IsValidEmail(input.email) && !IsWeak(input.password) && old(dataSource.dbRepository.fault).None? &&
         FirstMatch(old(dataSource.dbRepository.rows), EmailIs(input.email)).None?) ==>
        r == Ok(WithId(Hashed(input, salt), FreshId(old(dataSource.dbRepository.rows)))) &&
        dataSource.dbRepository.rows == old(dataSource.dbRepository.rows) + [r.value]
      ensures r.Err? ==> dataSource.dbRepository.rows == old(dataSource.dbRepository.rows)
      ensures r.Ok? ==> r.value.email == input.email && Credentials.Compare(input.password, r.value.password)
    {
      if !IsValidEmail(input.email) {
        return Err(HttpFailure(400, InvalidEmail));
      }
      if IsWeak(input.password) {
        return Err(HttpFailure(400, WeakPassword));
      }
      // try { if (await findOne(..)) throw 400 } catch (error) { if (error.code !== 404) throw error }
      var caught: Failure;
      var found := dataSource.FindOne(EmailIs(input.email));
      if found.Ok? {
        caught := HttpFailure(400, EmailInUse);
      } else {
        caught := found.failure;
      }
      if !IsNotFound(caught) {
        return Err(caught);
      }
      r := dataSource.Insert(input, salt);
    }
  }

  class LoginUseCase {
    const dataSource: UserDbDataSource

    constructor (dataSource: UserDbDataSource)
      ensures this.dataSource == dataSource
    {
      this.dataSource := dataSource;
    }

    /** `exec(input)`: the e-mail format, the lookup, the password, then a
        token for the user's id.  The catch around the lookup turns only a
        404 into 401; any other error leaves `user` undefined and the
        compare then reads `user.password` of `undefined`. */
    method Exec(input: LoginInput) returns (r: Result<LoginResult>)
      ensures !IsValidEmail(input.email) ==> r == Err(HttpFailure(400, InvalidEmail))
      ensures IsValidEmail(input.email) && dataSource.dbRepository.fault.Some? ==> r == Err(UndefinedProperty("password"))
      ensures (IsValidEmail(input.email) && dataSource.dbRepository.fault.None? &&
         FirstMatch(dataSource.dbRepository.rows, EmailIs(input.email)).None?) ==>
        r == Err(HttpFailure(401, InvalidCredentials))
      ensures (IsValidEmail(input.email) && dataSource.dbRepository.fault.None? &&
         FirstMatch(dataSource.dbRepository.rows, EmailIs(input.email)).Some?) ==>
        var u := FirstMatch(dataSource.dbRepository.rows, EmailIs(input.email)).value;
        r == if Credentials.Compare(input.password, u.password)
             then Ok(LoginResult(u, Credentials.Sign(u.id, RememberMe(input))))
             else Err(HttpFailure(401, InvalidCredentials))
      ensures r.Ok? ==> r.value.user in dataSource.dbRepository.rows && r.value.user.email == input.email
      ensures r.Ok? ==> Credentials.Compare(input.password, r.value.user.password)
      ensures r.Ok? ==> r.value.token.id == r.value.user.id && r.value.token.expiresIn == Credentials.ExpiryFor(RememberMe(input))
    {
      if !IsValidEmail(input.email) {
        return Err(HttpFailure(400, InvalidEmail));
      }
      var user: Option<User> := None;
      var found := dataSource.FindOne(EmailIs(input.email));
      if found.Ok? {
        user := Some(found.value);
      } else if IsNotFound(found.failure) {
        return Err(HttpFailure(401, InvalidCredentials));
      }
      if user.None? {
        return Err(UndefinedProperty("password"));
      }
      if !Credentials.Compare(input.password, user.value.password) {
        return Err(HttpFailure(401, InvalidCredentials));
      }
      var token := Credentials.Sign(user.value.id, RememberMe(input));
      return Ok(LoginResult(user.value, token));
    }
  }

  class GetUserUseCase {
    const dataSource: UserDbDataSource

    constructor (dataSource: UserDbDataSource)
      ensures this.dataSource == dataSource
    {
      this.dataSource := dataSource;
    }

    /** `exec({ id })`: an empty id is refused before any lookup; otherwise
        the stored row, password included. */
    method Exec(id: string) returns (r: Result<User>)
      ensures id == [] ==> r == Err(HttpFailure(400, BadUserId))
      ensures id != [] && dataSource.dbRepository.fault.Some? ==> r == Err(QueryFailed(dataSource.dbRepository.fault.value))
      ensures id != [] && dataSource.dbRepository.fault.None? ==>
        (r == Err(NotFound()) <==> forall j | 0 <= j < |dataSource.dbRepository.rows| :: dataSource.dbRepository.rows[j].id != id)
      ensures id != [] && dataSource.dbRepository.fault.None? && FirstMatch(dataSource.dbRepository.rows, IdIs(id)).Some? ==>
        r == Ok(FirstMatch(dataSource.dbRepository.rows, IdIs(id)).value)
      ensures r.Ok? ==> r.value.id == id && r.value in dataSource.dbRepository.rows
    {
      if |id| == 0 {
        return Err(HttpFailure(400, BadUserId));
      }
      r := dataSource.FindOne(IdIs(id));
    }
  }

  class GetUsersUseCase {
    const dataSource: UserDbDataSource

    constructor (dataSource: UserDbDataSource)
      ensures this.dataSource == dataSource
    {
      this.dataSource := dataSource;
    }

    /** `exec({ count, skip })`: one page of the name-ordered users and the
        figures about it. */
    method Exec(input: GetUsersInput) returns (r: Result<UsersPage<User>>)
      ensures dataSource.dbRepository.fault.Some? ==> r == Err(QueryFailed(dataSource.dbRepository.fault.value))
      ensures dataSource.dbRepository.fault.None? && (input.count < 0 || input.skip < 0) ==> r.Err? && r.failure.QueryFailed?
      ensures dataSource.dbRepository.fault.None? && input.skip < 0 ==>
        r == Err(QueryFailed("OFFSET must not be negative"))
      ensures dataSource.dbRepository.fault.None? && input.skip >= 0 && input.count < 0 ==>
        r == Err(QueryFailed("LIMIT must not be negative"))
      ensures dataSource.dbRepository.fault.None? && input.count >= 0 && input.skip >= 0 ==>
        r.Ok? && r.value.users == Page(SortByName(dataSource.dbRepository.rows), input.count, input.skip)
      ensures r.Ok? ==> (r.value.hasMore <==> input.skip + input.count < |dataSource.dbRepository.rows|)
      ensures r.Ok? ==> r.value.skippedUsers == input.skip && r.value.totalUsers == |dataSource.dbRepository.rows|
      ensures r.Ok? && input.skip >= |dataSource.dbRepository.rows| ==> r.value.users == [] && !r.value.hasMore
      ensures r.Ok? && input.count > 0 ==> |r.value.users| <= input.count
    {
      var found := dataSource.FindMany(input.count, input.skip);
      if found.Err? {
        return Err(found.failure);
      }
      var (users, usersCount) := found.value;
      PageBounds(SortByName(dataSource.dbRepository.rows), input.count, input.skip);
      var hasMore := HasMore(usersCount, input.skip, input.count);
      return Ok(UsersPage(users, hasMore, input.skip, usersCount));
    }
  }
}
