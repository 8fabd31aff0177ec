/** The two input checks every revision repeats: the e-mail pattern
      ^\w+([\.-]?\w+)*@\w+([\.-]?\w+)*(\.\w{2,3})+$
    and the password-strength test `length >= 7` together with
      ^.*(([A-Z].*[a-z])|([a-z].*[A-Z]))+.*$
    both under JavaScript regular-expression semantics without flags.
    The recognisers follow the patterns piece by piece; the lemmas prove
    them equal to flat descriptions of the strings they accept. */
module Validation {

  /** `\w` without the `u` flag: [A-Za-z0-9_]. */
  predicate IsWordChar(c: char)
  {
    ('A' <= c <= 'Z') || ('a' <= c <= 'z') || ('0' <= c <= '9') || c == '_'
  }

  /** The class `[\.-]`. */
  predicate IsSeparator(c: char)
  {
    c == '.' || c == '-'
  }

  // ---------------------------------------------------------------------
  // The e-mail pattern, piece by piece

  /** `\w+([\.-]?\w+)*`: a word character, followed either by nothing, or by
      a string of the same shape, or by one separator and a string of the
      same shape. */
  predicate WordRuns(s: string)
    decreases |s|
  {
    |s| > 0 && IsWordChar(s[0]) &&
    (|s| == 1 || WordRuns(s[1..]) || (IsSeparator(s[1]) && WordRuns(s[2..])))
  }

  /** `(\.\w{2,3})+`: a dot and two or three word characters, repeated at
      least once. */
  predicate TldGroups(s: string)
    decreases |s|
  {
    |s| >= 3 && s[0] == '.' && IsWordChar(s[1]) && IsWordChar(s[2]) &&
    (|s| == 3 || TldGroups(s[3..]) ||
     (IsWordChar(s[3]) && (|s| == 4 || TldGroups(s[4..]))))
  }

  /** The whole anchored pattern: local part, `@`, the `\w+([\.-]?\w+)*`
      part of the domain, then the `(\.\w{2,3})+` tail. */
  predicate IsValidEmail(s: string)
  {
    exists at, tld | 0 <= at < tld <= |s| ::
      s[at] == '@' && WordRuns(s[..at]) && WordRuns(s[at + 1..tld]) && TldGroups(s[tld..])
  }

  // ---------------------------------------------------------------------
  // Flat description of the accepted strings

  /** Word runs separated by single `.` or `-`: only word characters and
      separators, a word character first and last, and never two
      separators in a row. */
  predicate SeparatedRuns(s: string)
  {
    && |s| > 0
    && IsWordChar(s[0])
    && IsWordChar(s[|s| - 1])
    && (forall k | 0 <= k < |s| :: IsWordChar(s[k]) || IsSeparator(s[k]))
    && (forall k | 0 <= k < |s| - 1 :: IsSeparator(s[k]) ==> IsWordChar(s[k + 1]))
  }

  /** The last separator in `s` is a `.` at index `p`, followed by two or
      three word characters. */
  predicate DotTldAt(s: string, p: int)
  {
    && 0 <= p < |s|
    && s[p] == '.'
    && (|s| - p - 1 == 2 || |s| - p - 1 == 3)
    && (forall k | p < k < |s| :: IsWordChar(s[k]))
  }

  predicate EndsWithTld(s: string)
  {
    exists p | 0 <= p < |s| :: DotTldAt(s, p)
  }

  /** A domain: separated runs whose last separator is a dot followed by a
      run of length two or three. */
  predicate DomainShape(d: string)
  {
    SeparatedRuns(d) && EndsWithTld(d)
  }

  /** A local part, exactly one `@`, and a domain. */
  predicate EmailShape(s: string)
  {
    exists at | 0 <= at < |s| :: s[at] == '@' && SeparatedRuns(s[..at]) && DomainShape(s[at + 1..])
  }

  // ---------------------------------------------------------------------
  // Equivalence of the two descriptions

  lemma {:induction false} WordRunsIsSeparatedRuns(s: string)
    ensures WordRuns(s) <==> SeparatedRuns(s)
    decreases |s|
  {
    if |s| >= 2 {
      WordRunsIsSeparatedRuns(s[1..]);
      if |s| >= 3 {
        WordRunsIsSeparatedRuns(s[2..]);
      }
      if WordRuns(s) {
        if WordRuns(s[1..]) {
          SeparatedRunsCons(s, 1);
        } else {
          assert IsSeparator(s[1]) && WordRuns(s[2..]);
          SeparatedRunsCons(s, 2);
        }
      }
      if SeparatedRuns(s) {
        if IsWordChar(s[1]) {
          SeparatedRunsSuffix(s, 1);
        } else {
          SeparatedRunsSuffix(s, 2);
        }
      }
    }
  }

  /** A word character, or a word character and a separator, in front of
      separated runs gives separated runs. */
  lemma SeparatedRunsCons(s: string, d: int)
    requires d == 1 || d == 2
    requires |s| > d && IsWordChar(s[0]) && SeparatedRuns(s[d..])
    requires d == 2 ==> IsSeparator(s[1])
    ensures SeparatedRuns(s)
  {
    var t := s[d..];
    forall k | 0 <= k < |s| ensures IsWordChar(s[k]) || IsSeparator(s[k]) {
      if k >= d { assert s[k] == t[k - d]; }
    }
    forall k | 0 <= k < |s| - 1 && IsSeparator(s[k]) ensures IsWordChar(s[k + 1]) {
      if k >= d { assert s[k] == t[k - d] && s[k + 1] == t[k + 1 - d]; }
      else if k == d - 1 { assert s[k + 1] == t[0]; }
    }
    assert s[|s| - 1] == t[|t| - 1];
  }

  /** Separated runs with a word character at `d` (one or two) stay
      separated runs from `d` on. */
  lemma SeparatedRunsSuffix(s: string, d: int)
    requires d == 1 || d == 2
    requires |s| > d && SeparatedRuns(s) && IsWordChar(s[d])
    ensures SeparatedRuns(s[d..])
  {
    var t := s[d..];
    forall k | 0 <= k < |t| ensures IsWordChar(t[k]) || IsSeparator(t[k]) {
      assert t[k] == s[k + d];
    }
    forall k | 0 <= k < |t| - 1 && IsSeparator(t[k]) ensures IsWordChar(t[k + 1]) {
      assert t[k] == s[k + d] && t[k + 1] == s[k + 1 + d];
    }
    assert t[|t| - 1] == s[|s| - 1];
  }

  /** Two separated-runs strings joined by one separator form one. */
  lemma JoinSeparatedRuns(x: string, c: char, y: string)
    requires SeparatedRuns(x) && IsSeparator(c) && SeparatedRuns(y)
    ensures SeparatedRuns(x + [c] + y)
  {
    var s := x + [c] + y;
    forall k | 0 <= k < |s| ensures IsWordChar(s[k]) || IsSeparator(s[k]) {
      if k < |x| { assert s[k] == x[k]; }
      else if k > |x| { assert s[k] == y[k - |x| - 1]; }
    }
    forall k | 0 <= k < |s| - 1 && IsSeparator(s[k]) ensures IsWordChar(s[k + 1]) {
      if k < |x| - 1 { assert s[k] == x[k] && s[k + 1] == x[k + 1]; }
      else if k == |x| - 1 { assert s[k] == x[k]; }
      else if k == |x| { assert s[k + 1] == y[0]; }
      else { assert s[k] == y[k - |x| - 1] && s[k + 1] == y[k - |x|]; }
    }
    assert s[|s| - 1] == y[|y| - 1];
  }

  /** A dot followed by word characters up to `g`: the characters after
      the dot form one run. */
  lemma TldHeadIsRun(t: string, g: int)
    requires 2 <= g <= |t| && forall k | 1 <= k < g :: IsWordChar(t[k])
    ensures SeparatedRuns(t[1..g])
  {
    var head := t[1..g];
    forall k | 0 <= k < |head| ensures IsWordChar(head[k]) { assert head[k] == t[k + 1]; }
  }

  /** A final dot group of a suffix is a final dot group of the whole. */
  lemma DotTldShift(t: string, g: int, q: int)
    requires 0 <= g <= |t| && DotTldAt(t[g..], q)
    ensures DotTldAt(t, g + q)
  {
    var rest := t[g..];
    forall k | g + q < k < |t| ensures IsWordChar(t[k]) { assert t[k] == rest[k - g]; }
    assert t[g + q] == rest[q];
  }

  /** What `(\.\w{2,3})+` accepts: a dot, then separated runs (of word
      characters and dots), whose last separator is a dot with two or
      three word characters after it. */
  lemma {:induction false} TldGroupsShape(t: string)
    requires TldGroups(t)
    ensures t[0] == '.' && SeparatedRuns(t[1..]) && EndsWithTld(t)
    decreases |t|
  {
    var g := if |t| == 3 || TldGroups(t[3..]) then 3 else 4;
    TldHeadIsRun(t, g);
    if |t| == g {
      assert t[1..] == t[1..g];
      assert DotTldAt(t, 0);
    } else {
      var rest := t[g..];
      TldGroupsShape(rest);
      JoinSeparatedRuns(t[1..g], '.', rest[1..]);
      assert t[1..] == t[1..g] + ['.'] + rest[1..];
      var q :| 0 <= q < |rest| && DotTldAt(rest, q);
      DotTldShift(t, g, q);
    }
  }

  /** The two parts of the domain pattern, `\w+([\.-]?\w+)*` and
      `(\.\w{2,3})+`, joined, make a domain of `DomainShape`. */
  lemma DomainFromPattern(a: string, t: string)
    requires WordRuns(a) && TldGroups(t)
    ensures DomainShape(a + t)
  {
    WordRunsIsSeparatedRuns(a);
    TldGroupsShape(t);
    JoinDotted(a, t);
    EndsWithTldAppend(a, t);
  }

  /** Separated runs, then a dot and separated runs, are separated runs. */
  lemma JoinDotted(a: string, t: string)
    requires SeparatedRuns(a) && |t| > 1 && t[0] == '.' && SeparatedRuns(t[1..])
    ensures SeparatedRuns(a + t)
  {
    var y := t[1..];
    JoinSeparatedRuns(a, '.', y);
    assert t == ['.'] + y;
    assert a + ['.'] + y == a + t;
  }

  /** A string that ends with a dot group still does when something is put
      in front of it. */
  lemma EndsWithTldAppend(a: string, t: string)
    requires EndsWithTld(t)
    ensures EndsWithTld(a + t)
  {
    var q :| 0 <= q < |t| && DotTldAt(t, q);
    var d := a + t;
    assert d[|a|..] == t;
    DotTldShift(d, |a|, q);
  }

  /** Conversely every domain of `DomainShape` splits, at its last dot,
      into the two parts of the pattern. */
  lemma PatternFromDomain(d: string) returns (tld: int)
    requires DomainShape(d)
    ensures 0 < tld <= |d| && WordRuns(d[..tld]) && TldGroups(d[tld..])
  {
    var p :| 0 <= p < |d| && DotTldAt(d, p);
    assert p > 0 by { assert IsWordChar(d[0]); }
    assert IsWordChar(d[p - 1]);
    var a, t := d[..p], d[p..];
    assert SeparatedRuns(a) by {
      assert a[0] == d[0] && a[|a| - 1] == d[p - 1];
      forall k | 0 <= k < |a| ensures IsWordChar(a[k]) || IsSeparator(a[k]) { assert a[k] == d[k]; }
      forall k | 0 <= k < |a| - 1 && IsSeparator(a[k]) ensures IsWordChar(a[k + 1]) {
        assert a[k] == d[k] && a[k + 1] == d[k + 1];
      }
    }
    WordRunsIsSeparatedRuns(a);
    assert TldGroups(t) by {
      assert t[0] == '.' && t[1] == d[p + 1] && t[2] == d[p + 2];
      if |t| == 4 { assert t[3] == d[p + 3]; }
    }
    tld := p;
  }

  lemma EmailFromPattern(s: string, at: int, tld: int)
    requires 0 <= at < tld <= |s| && s[at] == '@'
    requires WordRuns(s[..at]) && WordRuns(s[at + 1..tld]) && TldGroups(s[tld..])
    ensures EmailShape(s)
  {
    var local, domain := s[..at], s[at + 1..];
    DomainFromPattern(s[at + 1..tld], s[tld..]);
    assert s[at + 1..tld] + s[tld..] == domain;
    WordRunsIsSeparatedRuns(local);
    assert s[at] == '@' && SeparatedRuns(local) && DomainShape(domain);
  }

  lemma PatternFromEmail(s: string, at: int) returns (tld: int)
    requires 0 <= at < |s| && s[at] == '@' && SeparatedRuns(s[..at]) && DomainShape(s[at + 1..])
    ensures at < tld <= |s| && WordRuns(s[..at]) && WordRuns(s[at + 1..tld]) && TldGroups(s[tld..])
  {
    var d := s[at + 1..];
    var i := PatternFromDomain(d);
    assert d[..i] == s[at + 1..at + 1 + i] && d[i..] == s[at + 1 + i..];
    WordRunsIsSeparatedRuns(s[..at]);
    tld := at + 1 + i;
  }

  /** The pattern accepts exactly a local part, one `@` and a domain. */
  lemma EmailPatternIsShape(s: string)
    ensures IsValidEmail(s) <==> EmailShape(s)
  {
    if IsValidEmail(s) {
      var at, tld :| 0 <= at < tld <= |s| && s[at] == '@' && WordRuns(s[..at]) &&
        WordRuns(s[at + 1..tld]) && TldGroups(s[tld..]);
      EmailFromPattern(s, at, tld);
    }
    if EmailShape(s) {
      var at :| 0 <= at < |s| && s[at] == '@' && SeparatedRuns(s[..at]) && DomainShape(s[at + 1..]);
      var tld := PatternFromEmail(s, at);
    }
  }

  /** A valid e-mail contains exactly one `@`. */
  lemma ValidEmailHasOneAt(s: string)
    requires IsValidEmail(s)
    ensures exists at | 0 <= at < |s| :: s[at] == '@' && forall k | 0 <= k < |s| && s[k] == '@' :: k == at
  {
    var at := ShapeSplit(s);
    OnlyAtOfShape(s, at);
  }

  /** A valid e-mail ends with a dot followed by two or three word
      characters; in particular a string without an `@`, or whose last
      three or four characters hold no dot, is rejected. */
  lemma ValidEmailEnding(s: string)
    requires IsValidEmail(s)
    ensures '@' in s
    ensures |s| >= 5 && (s[|s| - 3] == '.' || s[|s| - 4] == '.')
    ensures IsWordChar(s[|s| - 1]) && IsWordChar(s[|s| - 2])
  {
    var at := ShapeSplit(s);
    EndingOfShape(s, at);
  }

  /** The `@` at which an accepted address splits into local part and
      domain. */
  lemma ShapeSplit(s: string) returns (at: int)
    requires IsValidEmail(s)
    ensures 0 <= at < |s| && s[at] == '@' && SeparatedRuns(s[..at]) && DomainShape(s[at + 1..])
  {
    EmailPatternIsShape(s);
    at :| 0 <= at < |s| && s[at] == '@' && SeparatedRuns(s[..at]) && DomainShape(s[at + 1..]);
  }

  lemma OnlyAtOfShape(s: string, at: int)
    requires 0 <= at < |s| && s[at] == '@' && SeparatedRuns(s[..at]) && SeparatedRuns(s[at + 1..])
    ensures forall k | 0 <= k < |s| && s[k] == '@' :: k == at
  {
    forall k | 0 <= k < at ensures s[k] != '@' {
      assert s[..at][k] == s[k];
    }
    forall k | at < k < |s| ensures s[k] != '@' {
      assert s[at + 1..][k - at - 1] == s[k];
    }
  }

  lemma EndingOfShape(s: string, at: int)
    requires 0 <= at < |s| && s[at] == '@' && SeparatedRuns(s[..at]) && DomainShape(s[at + 1..])
    ensures '@' in s
    ensures |s| >= 5 && (s[|s| - 3] == '.' || s[|s| - 4] == '.')
    ensures IsWordChar(s[|s| - 1]) && IsWordChar(s[|s| - 2])
  {
    var d := s[at + 1..];
    var p :| 0 <= p < |d| && DotTldAt(d, p);
    assert s[at + 1 + p] == d[p];
    assert s[|s| - 1] == d[|d| - 1] && s[|s| - 2] == d[|d| - 2];
    assert IsWordChar(d[0]);
    assert |s[..at]| > 0;
  }

  // ---------------------------------------------------------------------
  // The password pattern

  /** The characters `.` does not match without the `s` flag. */
  predicate IsLineTerminator(c: char)
  {
    c == '\n' || c == '\r' || c == '\U{2028}' || c == '\U{2029}'
  }

  predicate IsUpper(c: char) { 'A' <= c <= 'Z' }

  predicate IsLower(c: char) { 'a' <= c <= 'z' }

  /** `^.*(([A-Z].*[a-z])|([a-z].*[A-Z]))+.*$`: every character is matched
      by `.` or a letter class, so none is a line terminator, and some
      letter of one case comes before a letter of the other (one round of
      the `+` group is already a match, and every match contains one). */
  predicate MixedCaseMatches(s: string)
  {
    && (forall k | 0 <= k < |s| :: !IsLineTerminator(s[k]))
    && exists i, j | 0 <= i < j < |s| :: (IsUpper(s[i]) && IsLower(s[j])) || (IsLower(s[i]) && IsUpper(s[j]))
  }

  predicate HasUpper(s: string) { exists k | 0 <= k < |s| :: IsUpper(s[k]) }

  predicate HasLower(s: string) { exists k | 0 <= k < |s| :: IsLower(s[k]) }

  /** The pattern holds iff there is no line terminator and there are an
      upper-case and a lower-case ASCII letter; no digit is required. */
  lemma MixedCaseIsBothCases(s: string)
    ensures MixedCaseMatches(s) <==>
      (forall k | 0 <= k < |s| :: !IsLineTerminator(s[k])) && HasUpper(s) && HasLower(s)
  {
    if HasUpper(s) && HasLower(s) {
      var u :| 0 <= u < |s| && IsUpper(s[u]);
      var l :| 0 <= l < |s| && IsLower(s[l]);
      if u < l {
        assert IsUpper(s[u]) && IsLower(s[l]);
      } else {
        assert l < u;
        assert IsLower(s[l]) && IsUpper(s[u]);
      }
    }
  }

  /** `isWeak`: not (at least seven characters and the pattern matches).
      `length` is counted in characters. */
  function IsWeak(password: string): (weak: bool)
    ensures |password| < 7 ==> weak
    ensures !weak <==> (|password| >= 7 && HasUpper(password) && HasLower(password) &&
                        forall k | 0 <= k < |password| :: !IsLineTerminator(password[k]))
  {
    MixedCaseIsBothCases(password);
    !(|password| >= 7 && MixedCaseMatches(password))
  }

  // ---------------------------------------------------------------------
  // The inputs used by the repository's tests

  /** 'shortmail' has no `@`; the reversed test address
      'moc.elpmaxe@liame-tset' has no dot among its last four characters. */
  lemma TestEmailsRejected()
    ensures !IsValidEmail("shortmail")
    ensures !IsValidEmail("moc.elpmaxe@liame-tset")
  {
    if IsValidEmail("shortmail") { ValidEmailEnding("shortmail"); }
    if IsValidEmail("moc.elpmaxe@liame-tset") { ValidEmailEnding("moc.elpmaxe@liame-tset"); }
  }

  /** 'shortpass' has no upper-case letter and 'short1' is six characters
      long, so both are weak; 'Supersafe' is strong. */
  lemma TestPasswords()
    ensures IsWeak("shortpass")
    ensures IsWeak("short1")
    ensures !IsWeak("Supersafe")
  {
    var p := "shortpass";
    assert !HasUpper(p) by {
      forall k | 0 <= k < |p| ensures !IsUpper(p[k]) {
        assert p[k] in "shortpa";
      }
    }
    var q := "Supersafe";
    assert IsUpper(q[0]) && IsLower(q[1]);
    forall k | 0 <= k < |q| ensures !IsLineTerminator(q[k]) {
      assert q[k] in "Supersaf";
    }
  }
}
