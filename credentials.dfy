/** Password digests and session tokens.  bcrypt's `hashSync` with
    `genSaltSync(6)` (src/helpers.ts) and `compareSync` are modelled by an
    injective, salted encoding: the digest is the bcrypt header for cost 6,
    the 22-character salt, then an encoding of the password.  The salt is
    random in the source and is a parameter here.  jsonwebtoken's `sign` is
    modelled by the record of what the token carries: the payload id and the
    `expiresIn` choice. */
module Credentials {

  import Errors

  /** A bcrypt salt: 22 characters of radix-64 text. */
  type Salt = s: string | |s| == 22 witness "ABCDEFGHIJKLMNOPQRSTUV"

  /** The header of every digest made with cost factor 6. */
  const BcryptHeader: string := "$2b$06$"

  /** The length of header and salt together. */
  const PrefixLength: nat := 29

  /** `encrypt(password)`: `bcrypt.hashSync(password, bcrypt.genSaltSync(6))`. */
  function Encrypt(password: string, salt: Salt): (digest: string)
    ensures |digest| == PrefixLength + |password|
    ensures digest[..|BcryptHeader|] == BcryptHeader
  {
    BcryptHeader + salt + password
  }

  /** `bcrypt.compareSync(plain, digest)`: a malformed digest fails closed. */
  predicate Compare(plain: string, digest: string)
  {
    |digest| >= PrefixLength && digest[..|BcryptHeader|] == BcryptHeader && digest[PrefixLength..] == plain
  }

  /** The digest of a password passes comparison against that password,
      and against no other. */
  lemma CompareEncrypt(plain: string, password: string, salt: Salt)
    ensures Compare(plain, Encrypt(password, salt)) <==> plain == password
  {
    var d := Encrypt(password, salt);
    assert d[PrefixLength..] == password;
  }

  /** A digest never equals the password it was made from. */
  lemma DigestIsNotPlaintext(password: string, salt: Salt)
    ensures Encrypt(password, salt) != password
  {
  }

  /** Hashing a digest once more gives one that the original password no
      longer passes. */
  lemma DoubleDigestRejectsPassword(password: string, first: Salt, second: Salt)
    ensures !Compare(password, Encrypt(Encrypt(password, first), second))
  {
    CompareEncrypt(password, Encrypt(password, first), second);
  }

  /** A digest is never a valid password shape for its own comparison: the
      swapped call `compareSync(digest, password)` of src/graphql-setup.ts
      fails for every password shorter than a digest. */
  lemma SwappedCompareFails(digest: string, password: string)
    requires |password| < PrefixLength
    ensures !Compare(digest, password)
  {
  }

  // ---------------------------------------------------------------------
  // Tokens

  /** `expiresIn: rememberMe ? '1w' : '1h'`. */
  datatype Expiry = OneHour | OneWeek
  {
    /** The lifetime in seconds that '1h' and '1w' stand for. */
    function Seconds(): (n: nat)
      ensures OneHour? ==> n == 60 * 60
      ensures OneWeek? ==> n == 7 * 24 * 60 * 60
    {
      match this
      case OneHour => 3600
      case OneWeek => 604800
    }
  }

  /** The choice made at every login: a week when the caller asked to be
      remembered, an hour otherwise. */
  function ExpiryFor(rememberMe: bool): (e: Expiry)
    ensures e == OneWeek <==> rememberMe
    ensures e == OneHour <==> !rememberMe
  {
    if rememberMe then OneWeek else OneHour
  }

  /** What `jwt.sign({ id }, secret, { expiresIn })` carries.  The secret,
      the signature and the issue time are not modelled. */
  datatype Token = Signed(id: string, expiresIn: Expiry)

  /** Signing the login payload for a user id. */
  function Sign(id: string, rememberMe: bool): (t: Token)
    ensures t.id == id
    ensures t.expiresIn.Seconds() == if rememberMe then 604800 else 3600
  {
    Signed(id, ExpiryFor(rememberMe))
  }

  /** The result of `jwt.verify(token, secret)`: the decoded payload, or the
      error the library throws.  Verification itself is a parameter of the
      model. */
  datatype Verdict = Decoded(subject: string) | Refused(error: Errors.Cause)
}
