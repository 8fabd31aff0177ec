/** Sequences of requests that the tests of the repository describe, run
    against the model: signing up and then logging in, and adding the same
    address twice in different letter case. */
module Scenarios {

  import opened Errors
  import opened Entity
  import opened Validation
  import opened Table
  import opened JsText
  import opened DataSource
  import opened UserUseCases
  import LegacyUseCases
  import GraphqlProps
  import Credentials

  /** Creating a user and then logging in with the same e-mail and the
      plain password gives back the created row and a token for its id. */
  method CreateThenLogin(ds: UserDbDataSource, input: UserInput, salt: Credentials.Salt, rememberMe: bool)
    returns (created: Result<User>, session: Result<LoginResult>)
    requires ds.dbRepository.fault.None?
    requires IsValidEmail(input.email) && !IsWeak(input.password)
    requires forall j | 0 <= j < |ds.dbRepository.rows| :: ds.dbRepository.rows[j].email != input.email
    modifies ds.dbRepository
    ensures created.Ok? && session.Ok?
    ensures session.value.user == created.value
    ensures session.value.token == Credentials.Sign(created.value.id, rememberMe)
    ensures ds.dbRepository.rows == old(ds.dbRepository.rows) + [created.value]
  {
    var create := new CreateUserUseCase(ds);
    created := create.Exec(input, salt);
    FirstMatchAppend(old(ds.dbRepository.rows), created.value, EmailIs(input.email));
    var login := new LoginUseCase(ds);
    session := login.Exec(LoginInput(input.email, input.password, Some(rememberMe)));
  }

  /** With the older `CreateUserUseCase`, the same sequence stores a
      digest of a digest, and the login with the plain password is refused. */
  method LegacyCreateThenLogin(ds: UserDbDataSource, input: UserInput, first: Credentials.Salt, second: Credentials.Salt,
                               rememberMe: bool)
    returns (created: Result<User>, session: Result<LoginResult>)
    requires ds.dbRepository.fault.None?
    requires IsValidEmail(input.email) && !IsWeak(input.password)
    requires forall j | 0 <= j < |ds.dbRepository.rows| :: ds.dbRepository.rows[j].email != input.email
    modifies ds.dbRepository
    ensures created.Ok?
    ensures session == Err(HttpFailure(401, InvalidCredentials))
    ensures ds.dbRepository.rows == old(ds.dbRepository.rows) + [created.value]
  {
    var create := new LegacyUseCases.CreateUserUseCase(ds);
    created := create.Exec(input, first, second);
    FirstMatchAppend(old(ds.dbRepository.rows), created.value, EmailIs(input.email));
    var login := new LegacyUseCases.LoginUseCase(ds);
    session := login.Exec(LoginInput(input.email, input.password, Some(rememberMe)));
  }

  /** "A@b.co" passes the shape check. */
  lemma MixedCaseAddressIsValid()
    ensures IsValidEmail("A@b.co")
  {
    var s := "A@b.co";
    assert s[..1] == "A" && s[2..3] == "b" && s[3..] == ".co";
    assert WordRuns("A") && WordRuns("b");
    assert TldGroups(".co");
  }

  /** Lower-casing "A@b.co". */
  lemma LowerCaseAddress()
    ensures ToLowerCase("A@b.co") == "a@b.co"
  {
    var l := ToLowerCase("A@b.co");
    assert l[0] == 'a';
    assert l[1..] == "@b.co";
  }

  /** A token verifier that accepts every token as user "1". */
  function AcceptAll(token: string): (v: Credentials.Verdict)
    ensures v == Credentials.Decoded("1")
  {
    Credentials.Decoded("1")
  }

  /** A logged-in caller: "Bearer t" passes `AcceptAll`. */
  lemma BearerAccepted()
    ensures GraphqlProps.GetVerification(Some("Bearer t"), AcceptAll, "").Ok?
  {
    var h := "Bearer t";
    assert h[..|Bearer|] == Bearer;
    assert OccursAt(h, Bearer, 0);
  }

  /** A request that meets the conditions of both case-variant scenarios:
      "A@b.co" with a strong password, from a caller whose "Bearer t"
      header every token passes, while the table holds "a@b.co". */
  function CaseVariantRequest(): (req: (User, UserInput, string))
    ensures req.0.email == "a@b.co" && req.1.email == "A@b.co"
    ensures GraphqlProps.GetVerification(Some(req.2), AcceptAll, "").Ok?
    ensures IsValidEmail(req.1.email) && !IsWeak(req.1.password)
    ensures ToLowerCase(req.1.email) == req.0.email && req.1.email != req.0.email
  {
    MixedCaseAddressIsValid();
    TestPasswords();
    LowerCaseAddress();
    BearerAccepted();
    var existing := User("1", "Ann", "a@b.co", "x", "2000-01-01", "123");
    assert "A@b.co"[0] != "a@b.co"[0];
    (existing, UserInput("Ann", "A@b.co", "Supersafe", "2000-01-01", "123"), "Bearer t")
  }

  /** The resolvers of src/graphql/graphql-props.ts look for a duplicate
      under the e-mail as typed, but store it lower-cased. So an address
      already stored is accepted again in another letter case, and the table
      ends with the same e-mail twice. */
  method CaseVariantDuplicate(existing: User, input: UserInput, header: string, verify: string -> Credentials.Verdict,
                              salt: Credentials.Salt)
    returns (repo: Repository, r: Result<User>)
    requires GraphqlProps.GetVerification(Some(header), verify, "").Ok?
    requires IsValidEmail(input.email) && !IsWeak(input.password)
    requires ToLowerCase(input.email) == existing.email && input.email != existing.email
    ensures r.Ok? && |repo.rows| == 2 && repo.rows[0].email == repo.rows[1].email == existing.email
    ensures !GraphqlProps.DistinctEmails(repo.rows)
  {
    repo := new Repository([existing], None);
    assert FirstMatch(repo.rows, EmailIs(input.email)).None? by {
      assert !Matches(repo.rows[0], EmailIs(input.email));
    }
    r := GraphqlProps.CreateUser(input, Some(header), verify, "", salt, repo);
    assert repo.rows[1] == r.value && r.value.email == ToLowerCase(input.email);
    RepeatedEmail(repo.rows);
  }

  /** Two rows with one e-mail break `DistinctEmails`. */
  lemma RepeatedEmail(rows: seq<User>)
    requires |rows| == 2 && rows[0].email == rows[1].email
    ensures !GraphqlProps.DistinctEmails(rows)
  {
    assert rows[0].email == rows[1].email;
  }

  /** The corrected check refuses the same request with 400. */
  method CaseVariantRefused(existing: User, input: UserInput, header: string, verify: string -> Credentials.Verdict,
                            salt: Credentials.Salt)
    returns (repo: Repository, r: Result<User>)
    requires GraphqlProps.GetVerification(Some(header), verify, "").Ok?
    requires IsValidEmail(input.email) && !IsWeak(input.password)
    requires ToLowerCase(input.email) == existing.email
    ensures r == Err(HttpFailure(400, EmailInUse)) && repo.rows == [existing]
  {
    repo := new Repository([existing], None);
    assert FirstMatch(repo.rows, EmailIs(ToLowerCase(input.email))) == Some(existing) by {
      assert Matches(repo.rows[0], EmailIs(ToLowerCase(input.email)));
    }
    r := GraphqlProps.CorrectedCreateUser(input, Some(header), verify, "", salt, repo);
  }
}
