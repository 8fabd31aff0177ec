/** The JavaScript string operations the resolvers use on the
    Authorization header and on e-mails: `replace` and `split` with a
    string pattern, truthiness of an optional string, and `toLowerCase`. */
module JsText {

  import opened Errors

  /** `pat` occurs in `s` starting at index `i`. */
  predicate OccursAt(s: string, pat: string, i: int)
  {
    0 <= i && i + |pat| <= |s| && s[i..i + |pat|] == pat
  }

  /** `i` is the first index at which `pat` occurs in `s`. */
  predicate FirstAt(s: string, pat: string, i: int)
  {
    OccursAt(s, pat, i) && forall j | 0 <= j < i :: !OccursAt(s, pat, j)
  }

  /** The first occurrence of `pat` at or after `from`. */
  function IndexFrom(s: string, pat: string, from: nat): (r: Option<nat>)
    ensures r.Some? ==> from <= r.value && OccursAt(s, pat, r.value)
    ensures r.Some? ==> forall j | from <= j < r.value :: !OccursAt(s, pat, j)
    ensures r.None? ==> forall j | from <= j :: !OccursAt(s, pat, j)
    decreases |s| - from
  {
    if from + |pat| > |s| then None
    else if s[from..from + |pat|] == pat then Some(from)
    else IndexFrom(s, pat, from + 1)
  }

  /** `s.indexOf(pat)`, with `None` for -1. */
  function IndexOf(s: string, pat: string): (r: Option<nat>)
    ensures r.Some? ==> FirstAt(s, pat, r.value)
    ensures r.None? ==> forall j :: !OccursAt(s, pat, j)
  {
    IndexFrom(s, pat, 0)
  }

  /** An occurrence with none before it is the one `indexOf` finds. */
  lemma IndexOfIsFirst(s: string, pat: string)
    ensures forall i | FirstAt(s, pat, i) ::
      IndexOf(s, pat) == Some(i)
  {
    forall i | FirstAt(s, pat, i)
      ensures IndexOf(s, pat) == Some(i)
    {
      var k := IndexOf(s, pat);
      assert k.Some?;
      assert !(k.value < i) && !(i < k.value);
    }
  }

  /** `s.replace(pat, rep)` with a string pattern: only the first
      occurrence is replaced. */
  function ReplaceFirst(s: string, pat: string, rep: string): (r: string)
    ensures (forall j :: !OccursAt(s, pat, j)) ==> r == s
    ensures forall i | FirstAt(s, pat, i) ::
      r == s[..i] + rep + s[i + |pat|..]
  {
    IndexOfIsFirst(s, pat);
    var k := IndexOf(s, pat);
    if k.None? then s
    else
      assert OccursAt(s, pat, k.value);
      s[..k.value] + rep + s[k.value + |pat|..]
  }

  /** `f` is the field at the start of `rest`: a prefix of it that holds no
      occurrence of `sep` and ends where `sep` next occurs, or at the end. */
  predicate FieldOf(rest: string, sep: string, f: string)
  {
    && |f| <= |rest| && rest[..|f|] == f
    && (|f| == |rest| || OccursAt(rest, sep, |f|))
    && forall k | 0 <= k < |f| :: !OccursAt(rest, sep, k)
  }

  /** The text up to the first occurrence of `sep`, or all of `rest`, is
      the field at its start. */
  lemma FieldUpToIndex(rest: string, sep: string)
    requires sep != []
    ensures IndexOf(rest, sep).None? ==> FieldOf(rest, sep, rest)
    ensures IndexOf(rest, sep).Some? ==> FieldOf(rest, sep, rest[..IndexOf(rest, sep).value])
  {
  }

  /** `s.split(sep)[1]`, with `None` for `undefined`: the text after the
      first occurrence of `sep` up to the next one, or to the end. */
  function SplitSecond(s: string, sep: string): (r: Option<string>)
    ensures sep != [] ==> (r.None? <==> forall j :: !OccursAt(s, sep, j))
    ensures sep != [] ==> forall i | FirstAt(s, sep, i) ::
      r.Some? && FieldOf(s[i + |sep|..], sep, r.value)
  {
    if sep == [] then
      // "ab".split("") is ["a", "b"]
      if |s| >= 2 then Some([s[1]]) else None
    else
      IndexOfIsFirst(s, sep);
      match IndexOf(s, sep)
      case None => None
      case Some(i) =>
        var rest := s[i + |sep|..];
        FieldUpToIndex(rest, sep);
        match IndexOf(rest, sep)
        case None => Some(rest)
        case Some(j) => Some(rest[..j])
  }

  /** JavaScript truthiness of an optional string: defined and non-empty. */
  predicate Truthy(s: Option<string>)
  {
    s.Some? && s.value != []
  }

  /** `x || d` for an optional number: `undefined` and `0` are falsy and
      give way to the default. */
  function OrDefault(x: Option<int>, d: int): (r: int)
    ensures x.None? || x == Some(0) ==> r == d
    ensures x.Some? && x.value != 0 ==> r == x.value
  {
    if x.Some? && x.value != 0 then x.value else d
  }

  /** `c.toLowerCase()` for one character; only A-Z are mapped. */
  function LowerChar(c: char): (l: char)
    ensures !('A' <= l <= 'Z')
    ensures !('A' <= c <= 'Z') ==> l == c
    ensures 'A' <= c <= 'Z' ==> l as int == c as int + 32
  {
    if 'A' <= c <= 'Z' then (c as int + 32) as char else c
  }

  /** `s.toLowerCase()`, restricted to ASCII letters. */
  function ToLowerCase(s: string): (r: string)
    ensures |r| == |s|
    ensures forall k | 0 <= k < |r| :: !('A' <= r[k] <= 'Z')
    ensures forall k | 0 <= k < |s| && !('A' <= s[k] <= 'Z') :: r[k] == s[k]
  {
    seq(|s|, k requires 0 <= k < |s| => LowerChar(s[k]))
  }

  /** Lower-casing twice changes nothing more. */
  lemma ToLowerCaseIdempotent(s: string)
    ensures ToLowerCase(ToLowerCase(s)) == ToLowerCase(s)
  {
  }

  // ---------------------------------------------------------------------
  // The two ways the revisions take a token out of the Authorization header

  const Bearer: string := "Bearer "

  /** A pattern occurs at the start of itself followed by anything. */
  lemma OccursAtStart(pat: string, t: string)
    ensures OccursAt(pat + t, pat, 0)
    ensures IndexOf(pat + t, pat) == Some(0)
  {
    assert (pat + t)[0..|pat|] == pat;
  }

  /** `replace('Bearer ', '')` on "Bearer <t>" gives `t`, whatever `t`
      holds; a header without "Bearer " passes through unchanged. */
  lemma ReplaceBearer(t: string, other: string)
    requires forall j :: !OccursAt(other, Bearer, j)
    ensures ReplaceFirst(Bearer + t, Bearer, "") == t
    ensures ReplaceFirst(other, Bearer, "") == other
  {
    OccursAtStart(Bearer, t);
    assert (Bearer + t)[|Bearer|..] == t;
  }

  /** `split('Bearer ')[1]` on "Bearer <t>" gives `t` when `t` holds no
      further "Bearer ", and only the text up to it when it does; a header
      without "Bearer " gives `undefined`. */
  lemma SplitBearer(t: string, other: string)
    requires forall j :: !OccursAt(other, Bearer, j)
    ensures (forall j :: !OccursAt(t, Bearer, j)) ==> SplitSecond(Bearer + t, Bearer) == Some(t)
    ensures forall i | FirstAt(t, Bearer, i) ::
      SplitSecond(Bearer + t, Bearer) == Some(t[..i])
    ensures SplitSecond(other, Bearer) == None
  {
    OccursAtStart(Bearer, t);
    assert (Bearer + t)[|Bearer|..] == t;
    IndexOfIsFirst(t, Bearer);
  }

  /** The two extractions differ on a header that repeats the scheme. */
  lemma ReplaceAndSplitDiffer()
    ensures ReplaceFirst("Bearer a Bearer b", Bearer, "") == "a Bearer b"
    ensures SplitSecond("Bearer a Bearer b", Bearer) == Some("a ")
  {
    var t := "a Bearer b";
    assert Bearer + t == "Bearer a Bearer b";
    assert OccursAt(t, Bearer, 2) by { assert t[2..9] == Bearer; }
    assert forall j | 0 <= j < 2 :: !OccursAt(t, Bearer, j) by {
      assert t[0] != 'B' && t[1] != 'B';
    }
    assert FirstAt(t, Bearer, 2);
    assert t[..2] == "a ";
    ReplaceBearer(t, "");
    SplitBearer(t, "");
  }
}
