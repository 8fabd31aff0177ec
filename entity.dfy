/** The record shapes of the user domain: the `User` table row
    (src/data/entity/User.ts), the inputs and outputs of the use-cases
    (src/business/model/user.model.ts) and the search conditions passed to
    the data source. */
module Entity {

  import opened Errors
  import Credentials

  /** A row of the `user` table.  Every column is a string. */
  datatype User = User(id: string, name: string, email: string, password: string, birthDate: string, cpf: string)

  /** `UserInputModel`: a user before the database gives it an id. */
  datatype UserInput = UserInput(name: string, email: string, password: string, birthDate: string, cpf: string)

  /** The row `save` writes for an input once the primary key is generated. */
  function WithId(input: UserInput, id: string): (u: User)
    ensures u.id == id
    ensures u.name == input.name && u.email == input.email && u.password == input.password
    ensures u.birthDate == input.birthDate && u.cpf == input.cpf
  {
    User(id, input.name, input.email, input.password, input.birthDate, input.cpf)
  }

  /** `UserModel`: a user as the API returns it, without the password. */
  datatype PublicUser = PublicUser(id: string, name: string, email: string, birthDate: string, cpf: string)

  /** `delete user.password`, or `const { password, ...rest } = user`. */
  function Strip(u: User): (p: PublicUser)
    ensures p.id == u.id && p.name == u.name && p.email == u.email
    ensures p.birthDate == u.birthDate && p.cpf == u.cpf
  {
    PublicUser(u.id, u.name, u.email, u.birthDate, u.cpf)
  }

  /** The `where` conditions the code searches by: `{ id }` or `{ email }`. */
  datatype Conditions = IdIs(id: string) | EmailIs(email: string)

  /** A row satisfies every given condition (column equality). */
  predicate Matches(u: User, c: Conditions)
  {
    match c
    case IdIs(id) => u.id == id
    case EmailIs(email) => u.email == email
  }

  /** `LoginInputModel`: `rememberMe` is optional, and its GraphQL default is
      `false` (src/api/graphql/user/login.input.ts:12). */
  datatype LoginInput = LoginInput(email: string, password: string, rememberMe: Option<bool>)

  /** `input.rememberMe ? '1w' : '1h'`: only `true` is truthy for an optional
      boolean. */
  predicate RememberMe(input: LoginInput)
  {
    input.rememberMe == Some(true)
  }

  /** `LoginModel`: the user row and its session token. */
  datatype LoginResult = LoginResult(user: User, token: Credentials.Token)

  /** `GetUsersInputModel`. */
  datatype GetUsersInput = GetUsersInput(count: int, skip: int)

  /** GraphQL's `defaultValue` (src/api/graphql/user/get-users.input.ts:6,9):
      it fills in an argument only when the argument is absent. */
  function GetUsersArgs(count: Option<int>, skip: Option<int>): (input: GetUsersInput)
    ensures count.None? ==> input.count == 10
    ensures count.Some? ==> input.count == count.value
    ensures skip.None? ==> input.skip == 0
    ensures skip.Some? ==> input.skip == skip.value
  {
    GetUsersInput(if count.Some? then count.value else 10, if skip.Some? then skip.value else 0)
  }

  /** `UsersModel`: one page of users and the figures about it. */
  datatype UsersPage<U> = UsersPage(users: seq<U>, hasMore: bool, skippedUsers: int, totalUsers: int)
}
