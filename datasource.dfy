/** `DataSource<User>` (src/data/source/datasource.ts) and its subclass
    `UserDbDataSource` (src/data/source/user.db.datasource.ts), which
    overrides only `insert`.  Both wrap the repository of the `user`
    table; the inherited members are members of the one class here, with
    the base `insert` under the name `BaseInsert`. */
module DataSource {

  import opened Errors
  import opened Entity
  import opened Ordering
  import opened Table
  import Credentials

  /** `this.dbRepository.metadata.name` for the `User` entity. */
  const EntityName: string := "User"

  /** The error `findOne` throws when nothing matches. */
  function NotFound(): (f: Failure)
    ensures IsNotFound(f) && f.error.message == "User not found"
  {
    HttpFailure(404, EntityName + " not found")
  }

  /** The row `UserDbDataSource.insert` hands on to the base `insert`:
      the input with its password replaced by the password's digest. */
  function Hashed(input: UserInput, salt: Credentials.Salt): (h: UserInput)
    ensures h.name == input.name && h.email == input.email
    ensures h.birthDate == input.birthDate && h.cpf == input.cpf
    ensures Credentials.Compare(input.password, h.password)
  {
    Credentials.CompareEncrypt(input.password, input.password, salt);
    input.(password := Credentials.Encrypt(input.password, salt))
  }

  class UserDbDataSource {
    const dbRepository: Repository

    constructor (dbRepository: Repository)
      ensures this.dbRepository == dbRepository
    {
      this.dbRepository := dbRepository;
    }

    /** `findOne(conditions)`: the first matching row, or
        `HttpError(404, 'User not found')`.  A database error propagates. */
    method FindOne(c: Conditions) returns (r: Result<User>)
      ensures dbRepository.fault.Some? ==> r == Err(QueryFailed(dbRepository.fault.value))
      ensures dbRepository.fault.None? ==>
        (r == Err(NotFound()) <==> forall j | 0 <= j < |dbRepository.rows| :: !Matches(dbRepository.rows[j], c))
      ensures dbRepository.fault.None? && FirstMatch(dbRepository.rows, c).Some? ==>
        r == Ok(FirstMatch(dbRepository.rows, c).value)
      ensures r.Ok? ==> Matches(r.value, c) && r.value in dbRepository.rows
      ensures r.Err? ==> r.failure == NotFound() || r.failure.QueryFailed?
    {
      var entity := dbRepository.FindOne(c);
      if entity.Err? {
        return Err(entity.failure);
      }
      if entity.value.None? {
        return Err(NotFound());
      }
      return Ok(entity.value.value);
    }

    /** `findMany(options)`: `findAndCount`'s `[page, total]`.  Its
        `!entities.length` test reads the length of that pair, which is
        always 2, so it never throws 404, not even for an empty page. */
    method FindMany(take: int, skip: int) returns (r: Result<(seq<User>, nat)>)
      ensures dbRepository.fault.Some? ==> r == Err(QueryFailed(dbRepository.fault.value))
      ensures dbRepository.fault.None? && (take < 0 || skip < 0) ==> r.Err? && r.failure.QueryFailed?
      ensures dbRepository.fault.None? && skip < 0 ==> r == Err(QueryFailed("OFFSET must not be negative"))
      ensures dbRepository.fault.None? && skip >= 0 && take < 0 ==> r == Err(QueryFailed("LIMIT must not be negative"))
      ensures dbRepository.fault.None? && take >= 0 && skip >= 0 ==>
        r == Ok((Page(SortByName(dbRepository.rows), take, skip), |dbRepository.rows|))
      ensures r.Err? ==> !IsNotFound(r.failure)
    {
      var entities := dbRepository.FindAndCount(take, skip);
      // `entities` is a pair, so `entities.length` is 2 and the 404 branch
      // is never taken.
      return entities;
    }

    /** `DataSource.insert(input)`: `this.dbRepository.save(input)`. */
    method BaseInsert(input: UserInput) returns (r: Result<User>)
      modifies dbRepository
      ensures dbRepository.fault == old(dbRepository.fault)
      ensures old(dbRepository.fault).Some? ==>
        r == Err(QueryFailed(old(dbRepository.fault).value)) && dbRepository.rows == old(dbRepository.rows)
      ensures old(dbRepository.fault).None? ==>
        r == Ok(WithId(input, FreshId(old(dbRepository.rows)))) && dbRepository.rows == old(dbRepository.rows) + [r.value]
      ensures UniqueIds(old(dbRepository.rows)) ==> UniqueIds(dbRepository.rows)
    {
      r := dbRepository.Save(input);
    }

    /** `UserDbDataSource.insert(user)`: hash the password, then the base
        `insert`.  The salt `genSaltSync(6)` draws is a parameter. */
    method Insert(input: UserInput, salt: Credentials.Salt) returns (r: Result<User>)
      modifies dbRepository
      ensures dbRepository.fault == old(dbRepository.fault)
      ensures old(dbRepository.fault).Some? ==>
        r == Err(QueryFailed(old(dbRepository.fault).value)) && dbRepository.rows == old(dbRepository.rows)
      ensures old(dbRepository.fault).None? ==>
        r == Ok(WithId(Hashed(input, salt), FreshId(old(dbRepository.rows)))) && dbRepository.rows == old(dbRepository.rows) + [r.value]
      ensures r.Ok? ==> Credentials.Compare(input.password, r.value.password)
      ensures UniqueIds(old(dbRepository.rows)) ==> UniqueIds(dbRepository.rows)
    {
      r := BaseInsert(Hashed(input, salt));
    }
  }
}
