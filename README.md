# User-account backend: a Dafny model

This project models the decision logic of a GraphQL user-account backend. The
backend is written in TypeScript on TypeORM, bcrypt and jsonwebtoken, and it
offers four operations on one `user` table:

- sign-up (`createUser`);
- log-in (`login`), which issues a session token;
- fetch one user by id (`user`);
- page through the users in name order (`users`).

The repository keeps several revisions of the same logic side by side:

- two revisions of the use-case layer over a `UserDbDataSource`, in
  `src/business/rule/user/` and `src/business/rule/`;
- five revisions of resolvers that run the checks inline against the TypeORM
  repository: `src/graphql/graphql-props.ts`, `src/graphql/user.resolver.ts`,
  `src/graphql-props.ts`, `src/graphql-setup.ts` and `src/graphQLSetup.ts`.

Within each revision, the model fixes three things: the order of the checks,
the error each failing path raises, and what the table holds afterwards.

## Modules

| Module | Models |
|---|---|
| `Errors` | The `HttpError` class (`src/error.ts`) and its `httpError` twin (`error.ts`), `formatError`, and the `Failure` / `Result` types for everything the code can throw. |
| `Validation` | The e-mail regular expression and the password-strength test. Each is proved equal to a plain description of the strings it accepts. |
| `Credentials` | bcrypt and jsonwebtoken, described below. |
| `JsText` | The JavaScript string operations the code relies on: `replace` and `split` with a string pattern, `x \|\| d` on numbers, truthiness, and ASCII `toLowerCase`. |
| `Entity` | The record shapes: `User`, `UserInput`, the password-less `PublicUser`, `LoginInput` and the page record. |
| `Ordering` | Name order: a code-point lexicographic order, proved total and transitive, and a sorted view of the table. |
| `Table` | The TypeORM `Repository<User>` as a class. Its `rows` hold the table in storage order. A `fault` stands for a database that rejects every query. |
| `DataSource` | `DataSource<User>` and its subclass `UserDbDataSource`, as one class over a repository. |
| `UserUseCases`, `LegacyUseCases` | The use-case classes of the two revisions. |
| `GraphqlProps`, `TypeGraphqlResolver`, `RootGraphqlProps`, `GraphqlSetup`, `GraphQLSetup` | The resolver revisions, in the order of the file list above. |
| `Scenarios` | Request sequences from the tests, and the concrete inputs behind the findings. |

**bcrypt model.** `hashSync(p, genSaltSync(6))` is an injective salted
encoding: the cost-6 header, then the 22-character salt, then the password.
In the model, `compareSync` accepts exactly the password a digest was made
from. Real bcrypt uses only the first 72 bytes of a password, so it also
accepts any password that shares those bytes (see "## Left out"). The salt is
a parameter.

**jsonwebtoken model.** A token is the record of what `sign` puts in it: the
user id, and whether it expires in one week or in one hour. `jwt.verify` with
the server secret is a parameter of type `string -> Verdict`.

**Where the model departs from the source.**

- Every use-case and resolver that runs the `isWeak` password test passes the
  model's `IsWeak` function.
  - `IsWeak` fails a password exactly when the password has 7 or more
    characters, no line terminator, at least one `A`-`Z` and at least one
    `a`-`z`.
  - No digit is required, although the error message asks for one.
- The use-case login looks the e-mail up as typed.
  - The newer `CreateUserUseCase` stores the e-mail unchanged, so its round
    trip works.
  - The resolvers store the e-mail lower-cased, so a user who signed up with
    capitals there can log in only with the lower-cased address.
- Wherever a code item and the written description of the behaviour
  disagree, the model follows the code:
  - the `hasMore` arithmetic;
  - the `findMany` 404 that can never fire;
  - `count || 10`.

## Model

| member | source | states |
|---|---|---|
| `Errors.InfoOf` | src/error.ts:17 | `additionalInfo` is undefined exactly when no error is passed, and otherwise is the error's message followed by its stack |
| `Errors.NewHttpError` | src/error.ts:12-18 | the error is named "HttpError" and carries the given code and message; `additionalInfo` is present iff a cause is given |
| `Errors.FormatError` | src/error.ts:21-23 | `formatError` builds the same error as the constructor, with the same name, code, message and info |
| `Errors.NewLowerHttpError` | error.ts:12-18 | the same fields as `NewHttpError`, named "httpError" |
| `Errors.FormatLowerError` | error.ts:21-23 | `formatError` of error.ts equals constructing an `httpError` |
| `Errors.RevisionsDifferOnlyInName` | error.ts:7-18 | the two classes build errors that differ in `name` and in nothing else |
| `Errors.HttpErrorObject.Fields` | src/error.ts:7-10 | the object's four fields, read back as a value |
| `Errors.HttpErrorObject.constructor` | src/error.ts:12-18 | after `super()` and the four assignments, the object's fields equal `NewHttpError(code, message, error)` |
| `Errors.HttpErrorObject.Lower` | error.ts:12-18 | the same, with the name "httpError" |
| `Errors.FormatErrorObject` | src/error.ts:21-23 | returns a fresh object whose fields are `FormatError(..)` |
| `Errors.FormatLowerErrorObject` | error.ts:21-23 | the same, for error.ts |
| `Errors.HttpFailure` | src/error.ts:12-18 | `throw new HttpError(code, message)`: code and message as given, name "HttpError", no additional info |
| `Validation.WordRunsIsSeparatedRuns` | src/business/rule/user/create-user.use-case.ts:9 | `\w+([.-]?\w+)*` matches exactly the word-character strings in which every `.` or `-` sits between two word characters |
| `Validation.TldGroupsShape` | src/business/rule/user/create-user.use-case.ts:9 | `(\.\w{2,3})+` matches exactly `.`-separated groups of 2 or 3 word characters |
| `Validation.DomainFromPattern` | src/business/rule/user/create-user.use-case.ts:9 | a domain matched by the pattern is separated word runs that end in `.` and 2-3 word characters |
| `Validation.PatternFromDomain` | src/business/rule/user/create-user.use-case.ts:9 | every such domain is matched, and the split point of its final group is named |
| `Validation.EmailFromPattern` | src/business/rule/user/create-user.use-case.ts:9 | an address the pattern accepts has the local-part / `@` / domain shape |
| `Validation.PatternFromEmail` | src/business/rule/user/create-user.use-case.ts:9 | every address of that shape is accepted |
| `Validation.EmailPatternIsShape` | src/business/rule/user/create-user.use-case.ts:9 | the regular expression accepts an address iff it has the shape: local part, one `@`, a domain ending in `.` and 2-3 word characters |
| `Validation.ValidEmailHasOneAt` | src/business/rule/user/create-user.use-case.ts:9 | an accepted address has exactly one `@` |
| `Validation.ValidEmailEnding` | src/business/rule/user/create-user.use-case.ts:9 | an accepted address is at least 5 characters long, has a `.` three or four places from its end, and ends in two word characters |
| `Validation.MixedCaseIsBothCases` | src/business/rule/user/create-user.use-case.ts:11 | the anchored mixed-case regex matches iff the string has no line terminator and holds both an A-Z and an a-z letter |
| `Validation.IsWeak` | src/business/rule/user/create-user.use-case.ts:10-11 | a password is weak if shorter than 7; it is strong iff it has 7 or more characters, an upper-case letter, a lower-case letter and no line terminator |
| `Validation.TestEmailsRejected` | src/test/user/create-user.test.ts:103-110 | 'shortmail' and the reversed test address 'moc.elpmaxe@liame-tset' are rejected |
| `Validation.TestPasswords` | src/test/user/create-user.test.ts:112-120 | 'shortpass' and 'short1' are weak; 'Supersafe' is not |
| `Credentials.Encrypt` | src/helpers.ts:3-5 | a digest starts with the cost-6 bcrypt header and is 29 characters longer than the password |
| `Credentials.CompareEncrypt` | src/helpers.ts:3-5 | `compareSync(plain, hashSync(password, salt))` holds iff `plain == password` |
| `Credentials.DigestIsNotPlaintext` | src/helpers.ts:3-5 | no digest equals its password |
| `Credentials.DoubleDigestRejectsPassword` | src/business/rule/create-user.use-case.ts:38-40 | a password does not pass against the digest of its own digest |
| `Credentials.SwappedCompareFails` | src/graphql-setup.ts:75 | a string shorter than a digest never passes as the digest argument of `compareSync` |
| `Credentials.Expiry.Seconds` | src/business/rule/user/login.use-case.ts:29 | '1h' is 3600 seconds and '1w' is 604800 |
| `Credentials.ExpiryFor` | src/business/rule/user/login.use-case.ts:29 | one week iff `rememberMe`, one hour otherwise |
| `Credentials.Sign` | src/business/rule/user/login.use-case.ts:29 | the token carries the given id, and its lifetime is a week when remembered and an hour otherwise |
| `JsText.IndexFrom` | src/graphql/graphql-props.ts:57 | the first occurrence of a pattern at or after a position, or none when it occurs nowhere after it |
| `JsText.IndexOf` | src/graphql/graphql-props.ts:57 | the first occurrence of a pattern, or none |
| `JsText.IndexOfIsFirst` | src/graphql/graphql-props.ts:57 | an occurrence with none before it is the one `indexOf` finds |
| `JsText.ReplaceFirst` | src/graphql/graphql-props.ts:57 | `replace` with a string pattern leaves a string without the pattern unchanged and otherwise replaces only the first occurrence |
| `JsText.FieldUpToIndex` | src/graphQLSetup.ts:43 | the text before the first separator, or the whole text when there is none, is the field at its start |
| `JsText.SplitSecond` | src/graphQLSetup.ts:43 | `split(sep)[1]` is undefined exactly when the separator does not occur; otherwise it is the field that follows the first occurrence |
| `JsText.OrDefault` | src/graphql/graphql-props.ts:83-84 | `x \|\| d` gives `d` for undefined and for 0, `x` otherwise |
| `JsText.LowerChar` | src/graphql/graphql-props.ts:138 | `toLowerCase` maps A-Z to a-z and keeps every other character |
| `JsText.ToLowerCase` | src/graphql/graphql-props.ts:138 | the result has the same length, no upper-case ASCII letter, and every non-A-Z character in place |
| `JsText.ToLowerCaseIdempotent` | src/graphql/graphql-props.ts:138 | lower-casing twice is lower-casing once |
| `JsText.ReplaceBearer` | src/graphql/graphql-props.ts:57 | `replace('Bearer ', '')` turns "Bearer t" into `t` whatever `t` holds, and leaves a header without "Bearer " unchanged |
| `JsText.SplitBearer` | src/graphQLSetup.ts:43 | `split('Bearer ')[1]` on "Bearer t" is `t` up to a second "Bearer ", and undefined for a header without the scheme |
| `JsText.ReplaceAndSplitDiffer` | src/graphQLSetup.ts:43 | on "Bearer a Bearer b" the `replace` revisions take "a Bearer b" and the `split` revision takes "a " |
| `Entity.WithId` | src/data/entity/User.ts:5-23 | the saved row carries the generated id and every field of the input |
| `Entity.Strip` | src/business/rule/user.use-case.ts:16 | deleting the password keeps id, name, e-mail, birth date and cpf |
| `Entity.GetUsersArgs` | src/api/graphql/user/get-users.input.ts:6-9 | `count` defaults to 10 and `skip` to 0, each only when absent |
| `Ordering.LexLeTotal` | src/business/rule/user/get-users.use-case.ts:11 | any two names are ordered one way or the other |
| `Ordering.LexLeTransitive` | src/business/rule/user/get-users.use-case.ts:11 | the name order is transitive |
| `Ordering.LexLeReflexive` | src/business/rule/user/get-users.use-case.ts:11 | the name order is reflexive |
| `Ordering.InsertByName` | src/business/rule/user/get-users.use-case.ts:11 | inserting into a sorted sequence keeps it sorted and adds exactly that row |
| `Ordering.SortByName` | src/business/rule/user/get-users.use-case.ts:11 | `order: { name: 'ASC' }` gives the same rows, as a multiset, in ascending name order |
| `Ordering.SortedByNameAll` | src/business/rule/user/get-users.use-case.ts:11 | in the sorted view every row's name precedes the names of all later rows |
| `Table.FirstIndex` | src/data/source/datasource.ts:8 | the index of a matching row with no match before it, or none when no row matches |
| `Table.FirstMatch` | src/data/source/datasource.ts:8 | `findOne` yields undefined iff no row matches; otherwise a matching row with no match before it |
| `Table.FirstMatchAppend` | src/data/source/datasource.ts:27-29 | after a row is appended, a search finds what it found before, or the new row when nothing matched before and the new row does |
| `Table.MaxIdLength` | src/data/entity/User.ts:6-7 | no id is longer than the bound |
| `Table.FreshId` | src/data/entity/User.ts:6-7 | the generated primary key differs from every existing id |
| `Table.Page` | src/business/rule/user/get-users.use-case.ts:8-12 | the page holds the ordered rows from `skip` up to but excluding `min(skip + take, total)`; it is empty when `skip >= total`, and with `take == 0` it runs to the end |
| `Table.PageBounds` | src/business/rule/user/get-users.use-case.ts:8-12 | a page holds at most `take` rows, at most the whole table, and only rows of the table |
| `Table.PageAll` | src/test/user/get-users.test.ts:85-87 | with `skip = 0` and `count >= total`, every user is returned |
| `Table.Repository.constructor` | src/data/entity/User.ts:4-5 | a repository over the given rows and database state |
| `Table.Repository.FindOne` | src/data/source/datasource.ts:8 | a database error, or the first matching row, or undefined exactly when no row matches |
| `Table.Repository.FindOneOrFail` | src/graphql-props.ts:63 | a database error, TypeORM's not-found error when nothing matches, or the first matching row |
| `Table.Repository.FindAndCount` | src/data/source/datasource.ts:18 | a database error, a negative OFFSET or LIMIT rejected, or the page of the name-ordered rows together with the size of the whole table |
| `Table.Repository.Save` | src/data/source/datasource.ts:27-29 | on success the table grows by exactly the input row with a fresh id, and no e-mail uniqueness is enforced; on failure nothing changes; unique ids stay unique |
| `DataSource.NotFound` | src/data/source/datasource.ts:11 | the not-found error is a 404 with message 'User not found' |
| `DataSource.Hashed` | src/data/source/user.db.datasource.ts:14 | the record handed to the base insert keeps every field except the password, which is replaced by a digest the original password passes |
| `DataSource.UserDbDataSource.constructor` | src/data/source/user.db.datasource.ts:10-12 | the data source wraps the given repository |
| `DataSource.UserDbDataSource.FindOne` | src/data/source/datasource.ts:7-15 | the first matching row, or a 404 'User not found' exactly when none matches; a database error propagates |
| `DataSource.UserDbDataSource.FindMany` | src/data/source/datasource.ts:17-25 | the page and the total row count; it never raises 404, even for an empty page; a database fault fails with its message, a negative skip with "OFFSET must not be negative" and otherwise a negative count with "LIMIT must not be negative" |
| `DataSource.UserDbDataSource.BaseInsert` | src/data/source/datasource.ts:27-29 | the saved row is appended and nothing else changes |
| `DataSource.UserDbDataSource.Insert` | src/data/source/user.db.datasource.ts:13-15 | exactly one row is appended: the input with a fresh id and the password replaced by its digest; the plain password passes against it; on failure nothing changes |
| `UserUseCases.HasMore` | src/business/rule/user/get-users.use-case.ts:14 | `total - skip - count > 0` iff `skip + count < total` |
| `UserUseCases.CreateUserUseCase.Exec` | src/business/rule/user/create-user.use-case.ts:8-34 | checks run in this order: e-mail (400), password (400), database error re-thrown, duplicate (400). Otherwise one row is appended: the input with its e-mail not lower-cased and its password hashed by the data source. Every failure leaves the table unchanged |
| `UserUseCases.LoginUseCase.Exec` | src/business/rule/user/login.use-case.ts:11-31 | outcomes in order: bad e-mail 400; unknown e-mail 401; a database error is swallowed and ends in a TypeError with no token; wrong password 401; otherwise the stored row and a token for its id, one week iff `rememberMe` |
| `UserUseCases.GetUserUseCase.Exec` | src/business/rule/user/get-user.use-case.ts:8-13 | an empty id gives 400 'Bad user id' before any lookup; a present id gives the first stored row with that id, password included; an absent id gives 404; a database error propagates |
| `UserUseCases.GetUsersUseCase.Exec` | src/business/rule/user/get-users.use-case.ts:7-17 | the users are the name-ordered page; `hasMore` iff `skip + count < total`; `skippedUsers == skip`; `totalUsers` is the table size; a `skip` past the end gives an empty page and no more; a database fault fails with its message, a negative skip with "OFFSET must not be negative" and otherwise a negative count with "LIMIT must not be negative" |
| `LegacyUseCases.CreateUserUseCase.Exec` | src/business/rule/create-user.use-case.ts:13-41 | the same order of checks and the same errors; the stored password is the digest of the digest, so the plain password no longer passes |
| `LegacyUseCases.LoginUseCase.Exec` | src/business/rule/login.use-case.ts:16-36 | the same outcomes as the newer login |
| `LegacyUseCases.UserUseCase.Exec` | src/business/rule/user.use-case.ts:11-18 | an empty id gives 400; an absent id gives 404; a present id gives the first stored row with that id, without its password |
| `LegacyUseCases.UsersUseCase.Exec` | src/business/rule/users.use-case.ts:11-21 | the same page, figures and errors as `GetUsersUseCase`: a database fault fails with its message, a negative skip with "OFFSET must not be negative" and otherwise a negative count with "LIMIT must not be negative" |
| `GraphqlProps.MissingHeader` | src/graphql/graphql-props.ts:54 | a 401 'You must be logged in' whose info is the stack of an empty `JsonWebTokenError` |
| `GraphqlProps.GetVerification` | src/graphql/graphql-props.ts:51-63 | no header gives 401; otherwise the first "Bearer " is removed and the rest verified; every failure is a 401 HttpError |
| `GraphqlProps.BearerHeaders` | src/graphql/graphql-props.ts:57 | "Bearer t" passes iff `t` verifies; a header without the scheme is verified whole |
| `GraphqlProps.NewUser` | src/graphql/graphql-props.ts:136-142 | the saved record has a lower-cased e-mail and a hashed password that the plain password passes; other fields are copied |
| `GraphqlProps.UserQuery` | src/graphql/graphql-props.ts:68-79 | after the header check, an empty id and an absent id both give 404; a present id gives the first stored row with that id, without its password |
| `GraphqlProps.UsersQuery` | src/graphql/graphql-props.ts:80-92 | `count \|\| 10` and `skip \|\| 0`, so an explicit 0 count becomes 10; the page, `hasMore` iff `skip + count < total`, `skippedUsers`, `totalUsers`; an unauthorised header fails as `getVerification` does, a database fault fails with that fault's message, a negative skip with "OFFSET must not be negative" and otherwise a negative count with "LIMIT must not be negative" |
| `GraphqlProps.Login` | src/graphql/graphql-props.ts:95-112 | bad e-mail 400, unknown e-mail 401, wrong password 401; otherwise the row and a token for its id |
| `GraphqlProps.CreateUser` | src/graphql/graphql-props.ts:113-144 | checks in order: header, e-mail, password, duplicate under the e-mail as typed. The row saved is lower-cased and hashed. Failures change nothing |
| `GraphqlProps.CorrectedCreateUser` | src/graphql/graphql-props.ts:132-143 | the checks of `CreateUser` in the same order, with the duplicate check made on the lower-cased e-mail; a database fault fails with its message; a new lower-cased e-mail appends exactly the hashed row with a fresh id; a table without repeated e-mails keeps that property |
| `TypeGraphqlResolver.UserResolver.constructor` | src/graphql/user.resolver.ts:17 | the resolver holds the given repository |
| `TypeGraphqlResolver.UserResolver.GetVerification` | src/graphql/user.resolver.ts:19-31 | no header gives 401; the first "Bearer " is removed; a verification failure gives 401 |
| `TypeGraphqlResolver.UserResolver.Login` | src/graphql/user.resolver.ts:38-59 | bad e-mail 400, unknown e-mail or wrong password 401, otherwise a token for the user's id with a 1w/1h expiry |
| `TypeGraphqlResolver.UserResolver.UserQuery` | src/graphql/user.resolver.ts:61-72 | after the header check, an empty or absent id gives 404; a present id gives the first stored row with that id, without its password |
| `TypeGraphqlResolver.UserResolver.UsersQuery` | src/graphql/user.resolver.ts:74-87 | the defaults apply only to absent arguments, so `count: 0` stays 0 and, dropped by TypeORM, lifts the limit; `hasMore` iff `skip + count < total`; a database fault fails with that fault's message, a negative skip with "OFFSET must not be negative" and otherwise a negative count with "LIMIT must not be negative" |
| `TypeGraphqlResolver.UserResolver.CreateUser` | src/graphql/user.resolver.ts:89-119 | checks in this order: header, e-mail, password, duplicate. The saved row is lower-cased and hashed, with name, birth date and cpf copied |
| `RootGraphqlProps.GetVerification` | src/graphql-props.ts:42-52 | no header gives 401; a failed verification escapes as the library's error, without a code |
| `RootGraphqlProps.UserQuery` | src/graphql-props.ts:57-70 | every lookup failure gives 404 'User not found'; the result is a copy without the password |
| `RootGraphqlProps.Login` | src/graphql-props.ts:73-92 | no e-mail check; an unknown e-mail, a database error and a wrong password all give 401; otherwise a token with a 1w/1h expiry |
| `RootGraphqlProps.CreateUser` | src/graphql-props.ts:93-120 | header, e-mail 400, password 400 with the message as concatenated, duplicate 400; the saved row is lower-cased and hashed |
| `GraphqlSetup.GetVerification` | src/graphql-setup.ts:40-50 | no header throws a `JsonWebTokenError` without a code; the first "Bearer " is removed; a verification error escapes |
| `GraphqlSetup.VerifyEmail` | src/graphql-setup.ts:53-57 | returns normally iff the address has the accepted shape, and throws a 400 `httpError` otherwise |
| `GraphqlSetup.Login` | src/graphql-setup.ts:64-85 | the e-mail check comes first; an unknown e-mail gives 401. A token is issued exactly when `compareSync(user.password, password)` fails, which includes every password shorter than 29 characters |
| `GraphqlSetup.SwappedCheckAdmitsWrongPassword` | src/graphql-setup.ts:75 | against a stored digest the check as written refuses neither the right password nor a wrong one, while the intended check tells them apart |
| `GraphqlSetup.CorrectedLogin` | src/graphql-setup.ts:75-84 | with `!compareSync(password, user.password)`, a token is issued only for the password the digest was made from |
| `GraphqlSetup.CreateUser` | src/graphql-setup.ts:87-112 | no e-mail check; a weak password or a duplicate gives a plain Error without a code; the saved row is lower-cased and hashed |
| `GraphQLSetup.TokenError` | src/graphQLSetup.ts:40 | a `JsonWebTokenError` with the given message |
| `GraphQLSetup.GetVerification` | src/graphQLSetup.ts:38-55 | no resolver of the file calls it; no header: 'you must be logged in!'; nothing after the first "Bearer ": 'you should provide a token!'; a refused token: 'invalid token!'; otherwise the decoded payload |
| `GraphQLSetup.SchemeRequired` | src/graphQLSetup.ts:43-46 | "Bearer t" is verified as `t`; a header without the scheme is refused before verification |
| `GraphQLSetup.Login` | src/graphQLSetup.ts:62-82 | any lookup failure and any password other than the stored text give 'Invalid Credentials'; otherwise a token for the user's id |
| `GraphQLSetup.PlainUser` | src/graphQLSetup.ts:86-92 | the saved record has a lower-cased e-mail and the plain password; other fields are copied |
| `GraphQLSetup.CreateUser` | src/graphQLSetup.ts:84-94 | no checks: the save alone can fail, and on success exactly that record is appended |
| `Scenarios.CreateThenLogin` | src/test/user/create-user.test.ts:69-82 | a new user can log in with the plain password, and gets back the created row and a token for its id |
| `Scenarios.LegacyCreateThenLogin` | src/business/rule/create-user.use-case.ts:38-40 | with the older create use-case, the same log-in is refused with 401 |
| `Scenarios.MixedCaseAddressIsValid` | src/graphql/graphql-props.ts:116 | "A@b.co" is an accepted address |
| `Scenarios.LowerCaseAddress` | src/graphql/graphql-props.ts:138 | a witness for `CaseVariantRequest`: "A@b.co" lower-cases to "a@b.co" |
| `Scenarios.CaseVariantRequest` | src/graphql/graphql-props.ts:116-138 | "A@b.co" with a strong password, over a stored "a@b.co", meets the conditions of both case-variant scenarios |
| `Scenarios.CaseVariantDuplicate` | src/graphql/graphql-props.ts:132-143 | for any logged-in request whose valid address differs from a stored one only in letter case, sign-up succeeds and the table holds that e-mail twice |
| `Scenarios.CaseVariantRefused` | src/graphql/graphql-props.ts:132-134 | the corrected check refuses every such request with 400 and leaves the table as it was |

## Left out

- **bcrypt.** The cost-6 hashing and `compareSync` are an injective encoding with the salt as a parameter. Digest strength, the real radix-64 format and timing are not modelled. Nor is bcrypt's truncation of a password to its first 72 bytes. So `Credentials.CompareEncrypt`'s "only if `plain == password`", and `GraphqlSetup.CorrectedLogin`'s "only the password the digest was made from", hold for the encoding and, for real bcrypt, only for passwords of at most 72 bytes.
- **jsonwebtoken and the clock.** `sign` records the payload id and the expiry choice. The secret, the signature, `iat` and clock expiry are not modelled. `verify` is a parameter.
- **Error stacks.** The runtime text of `error.stack` is a parameter or an opaque field.
- **Row order.** `findOne` without an order returns the first match in storage order. PostgreSQL promises no order there.
- **Name order.** `order: { name: 'ASC' }` is code-point lexicographic order. PostgreSQL collation is not modelled.
- **Ids.** uuid generation is modelled only by freshness. PostgreSQL also rejects an id string that is not uuid syntax with a query error. The model treats such an id as absent.
- **Database errors.** The message of a query rejected by PostgreSQL is modelled only for a negative OFFSET or LIMIT, where OFFSET is checked first. Any other database failure is the repository's `fault`, raised by every query.
- **Concurrency.** Every call runs to completion before the next one. The race between the duplicate check and the insert, and interleaved requests, are not modelled.
- **GraphQL arguments.** Arguments are present or absent, and an explicit `null` is not modelled. GraphQL's 32-bit `Int` range, and the `cpf: Int` of the schema against the `string` column, are not modelled.
- **Character semantics.** Strings are sequences of code points, not UTF-16 units, so `password.length` counts code points. `toLowerCase` maps only A-Z.
- **RootGraphqlProps.CreateUser.** Its `encrypt` is imported from `./test/helpers`, which is not part of this model. It is taken to be the `encrypt` of src/helpers.ts.
- **In-place deletion.** `delete user.password` on the fetched object is modelled as `Strip`. The object is a fresh copy, so the table is not affected.
- **Left-out wiring.**
  - the `hello` query;
  - the GraphQL schema strings;
  - type-graphql decorators;
  - the typedi container;
  - server setup;
  - seeding;
  - the `console.log` in src/graphQLSetup.ts.
- **Unused verification result.** The resolvers ignore what `getVerification` returns, so a decoded payload is only a string.
- **GraphqlProps.GetVerification.** It states the message of a failed verification on the `Refused` path only. The message of a missing header is stated through `MissingHeader`.

## Findings

| source | as written | input that shows it | evidently intended | confidence | as-written member | corrected member |
|---|---|---|---|---|---|---|
| src/graphql-setup.ts:75 | `if (bcrypt.compareSync(user.password, password))` refuses the log-in, and every other case gets a token | a stored digest and any password shorter than 29 characters, right or wrong, e.g. 'wrong' | `if (!bcrypt.compareSync(password, user.password))`, as in the other revisions | high, not executed | `GraphqlSetup.Login`, `GraphqlSetup.SwappedCheckAdmitsWrongPassword` | `GraphqlSetup.CorrectedLogin` |
| src/business/rule/create-user.use-case.ts:38-40 | the use-case hashes the password, and `UserDbDataSource.insert` hashes it again | create any valid user, then log in with the same password: 401 | hash once, as the newer use-case does, so that the log-in after sign-up succeeds (src/test/user/create-user.test.ts:69-82) | high, not executed | `LegacyUseCases.CreateUserUseCase.Exec`, `Scenarios.LegacyCreateThenLogin` | `UserUseCases.CreateUserUseCase.Exec`, `Scenarios.CreateThenLogin` |
| src/graphql/graphql-props.ts:132-138 | the duplicate check looks up the e-mail as typed, but the row is saved lower-cased | with "a@b.co" stored, create "A@b.co" (`Scenarios.CaseVariantRequest`) | refuse the address once it has been normalised, so that the table never holds one e-mail twice | medium, not executed | `GraphqlProps.CreateUser`, `Scenarios.CaseVariantDuplicate` | `GraphqlProps.CorrectedCreateUser`, `Scenarios.CaseVariantRefused` |
