/** The TypeORM `Repository<User>` the data source and the resolvers read and
    write: the `user` table as a sequence of rows in storage order.  `fault`
    stands for a database that rejects every query (a lost connection, a
    missing table); when it is set every call fails with its message and
    nothing is written. */
module Table {

  import opened Errors
  import opened Entity
  import opened Ordering

  /** The index of the first row satisfying `c`. */
  function FirstIndex(rows: seq<User>, c: Conditions): (r: Option<nat>)
    ensures r.Some? ==> r.value < |rows| && Matches(rows[r.value], c)
    ensures r.Some? ==> forall j | 0 <= j < r.value :: !Matches(rows[j], c)
    ensures r.None? ==> forall j | 0 <= j < |rows| :: !Matches(rows[j], c)
  {
    if rows == [] then None
    else if Matches(rows[0], c) then Some(0)
    else
      match FirstIndex(rows[1..], c)
      case None => None
      case Some(i) => Some(i + 1)
  }

  /** What `findOne({ where: c })` resolves to: the first row satisfying
      `c`, or `undefined`. */
  function FirstMatch(rows: seq<User>, c: Conditions): (r: Option<User>)
    ensures r.None? <==> forall j | 0 <= j < |rows| :: !Matches(rows[j], c)
    ensures r.Some? ==> Matches(r.value, c)
    ensures r.Some? ==> exists i | 0 <= i < |rows| :: rows[i] == r.value && forall j | 0 <= j < i :: !Matches(rows[j], c)
  {
    match FirstIndex(rows, c)
    case None => None
    case Some(i) => Some(rows[i])
  }

  /** Appending a row changes what a search finds only when nothing
      matched before and the new row matches. */
  lemma FirstMatchAppend(rows: seq<User>, u: User, c: Conditions)
    ensures FirstMatch(rows + [u], c) ==
      if FirstMatch(rows, c).Some? then FirstMatch(rows, c)
      else if Matches(u, c) then Some(u)
      else None
  {
    var both := rows + [u];
    assert forall j | 0 <= j < |rows| :: both[j] == rows[j];
    assert both[|rows|] == u;
    match FirstIndex(rows, c)
    case Some(i) =>
      assert FirstIndex(both, c) == Some(i);
    case None =>
      if Matches(u, c) {
        assert FirstIndex(both, c) == Some(|rows|);
      }
  }

  /** No two rows share a primary key. */
  predicate UniqueIds(rows: seq<User>)
  {
    forall i, j | 0 <= i < j < |rows| :: rows[i].id != rows[j].id
  }

  /** The length of the longest id in the table. */
  function MaxIdLength(rows: seq<User>): (m: nat)
    ensures forall i | 0 <= i < |rows| :: |rows[i].id| <= m
  {
    if rows == [] then 0
    else
      var rest := MaxIdLength(rows[1..]);
      if |rows[0].id| > rest then |rows[0].id| else rest
  }

  /** The primary key `save` generates: an id no row has.  The uuid format
      is not modelled, only freshness. */
  function FreshId(rows: seq<User>): (id: string)
    ensures forall i | 0 <= i < |rows| :: rows[i].id != id
  {
    seq(MaxIdLength(rows) + 1, k => '0')
  }

  /** `skip` / `take` as TypeORM applies them to the ordered rows: a
      zero option is dropped (`if (options.take)`), so `take == 0` means no
      limit. */
  function Page(sorted: seq<User>, take: nat, skip: nat): (p: seq<User>)
    ensures skip >= |sorted| ==> p == []
    ensures skip < |sorted| && take == 0 ==> |p| == |sorted| - skip
    ensures skip < |sorted| && take > 0 ==> |p| == if skip + take < |sorted| then take else |sorted| - skip
    ensures forall k | 0 <= k < |p| :: skip + k < |sorted| && p[k] == sorted[skip + k]
  {
    if skip >= |sorted| then []
    else if take == 0 || skip + take >= |sorted| then sorted[skip..]
    else sorted[skip..skip + take]
  }

  /** A page never holds more rows than asked for, or than there are. */
  lemma PageBounds(sorted: seq<User>, take: nat, skip: nat)
    ensures take > 0 ==> |Page(sorted, take, skip)| <= take
    ensures |Page(sorted, take, skip)| <= |sorted|
    ensures multiset(Page(sorted, take, skip)) <= multiset(sorted)
  {
    var p := Page(sorted, take, skip);
    if skip < |sorted| {
      var hi := if take == 0 || skip + take >= |sorted| then |sorted| else skip + take;
      assert p == sorted[skip..hi];
      assert sorted == sorted[..skip] + p + sorted[hi..];
      calc {
        multiset(sorted);
        multiset(sorted[..skip]) + multiset(p) + multiset(sorted[hi..]);
      }
    }
  }

  /** A first page at least as large as the table is the whole table. */
  lemma PageAll(sorted: seq<User>, take: nat)
    requires take == 0 || take >= |sorted|
    ensures Page(sorted, take, 0) == sorted
  {
  }

  class Repository {
    var rows: seq<User>
    var fault: Option<string>

    constructor (rows: seq<User>, fault: Option<string>)
      ensures this.rows == rows && this.fault == fault
    {
      this.rows := rows;
      this.fault := fault;
    }

    /** `findOne({ where: c })`: the first matching row, `undefined` when
        there is none. */
    method FindOne(c: Conditions) returns (r: Result<Option<User>>)
      ensures fault.Some? ==> r == Err(QueryFailed(fault.value))
      ensures fault.None? ==> r.Ok?
      ensures r.Ok? ==> (r.value.None? <==> forall j | 0 <= j < |rows| :: !Matches(rows[j], c))
      ensures r.Ok? && r.value.Some? ==> r.value == FirstMatch(rows, c)
    {
      if fault.Some? {
        return Err(QueryFailed(fault.value));
      }
      return Ok(FirstMatch(rows, c));
    }

    /** `findOneOrFail(c)`: the first matching row, or TypeORM's
        `EntityNotFound` error. */
    method FindOneOrFail(c: Conditions) returns (r: Result<User>)
      ensures fault.Some? ==> r == Err(QueryFailed(fault.value))
      ensures fault.None? && FirstMatch(rows, c).None? ==> r == Err(EntityNotFound)
      ensures fault.None? && FirstMatch(rows, c).Some? ==> r == Ok(FirstMatch(rows, c).value)
      ensures r.Ok? ==> Matches(r.value, c) && r.value in rows
    {
      var found := FindOne(c);
      if found.Err? {
        return Err(found.failure);
      }
      if found.value.None? {
        return Err(EntityNotFound);
      }
      return Ok(found.value.value);
    }

    /** `findAndCount({ take, skip, order: { name: 'ASC' } })`: the page of
        the name-ordered rows and the number of rows in the whole table.  A
        negative option reaches the SQL and PostgreSQL rejects it, OFFSET
        first. */
    method FindAndCount(take: int, skip: int) returns (r: Result<(seq<User>, nat)>)
      ensures fault.Some? ==> r == Err(QueryFailed(fault.value))
      ensures fault.None? && skip < 0 ==> r == Err(QueryFailed("OFFSET must not be negative"))
      ensures fault.None? && skip >= 0 && take < 0 ==> r == Err(QueryFailed("LIMIT must not be negative"))
      ensures fault.None? && take >= 0 && skip >= 0 ==> r == Ok((Page(SortByName(rows), take, skip), |rows|))
      ensures r.Ok? ==> r.value.1 == |rows| && multiset(r.value.0) <= multiset(rows)
    {
      if fault.Some? {
        return Err(QueryFailed(fault.value));
      }
      if skip < 0 {
        return Err(QueryFailed("OFFSET must not be negative"));
      }
      if take < 0 {
        return Err(QueryFailed("LIMIT must not be negative"));
      }
      var sorted := SortByName(rows);
      PageBounds(sorted, take, skip);
      return Ok((Page(sorted, take, skip), |rows|));
    }

    /** `save(input)`: one new row with a generated id; nothing checks the
        e-mail for uniqueness, since the column has no unique constraint. */
    method Save(input: UserInput) returns (r: Result<User>)
      modifies this`rows
      ensures old(fault).Some? ==> r == Err(QueryFailed(old(fault).value)) && rows == old(rows)
      ensures old(fault).None? ==> r == Ok(WithId(input, FreshId(old(rows)))) && rows == old(rows) + [r.value]
      ensures UniqueIds(old(rows)) ==> UniqueIds(rows)
    {
      if fault.Some? {
        return Err(QueryFailed(fault.value));
      }
      var u := WithId(input, FreshId(rows));
      rows := rows + [u];
      return Ok(u);
    }
  }
}
