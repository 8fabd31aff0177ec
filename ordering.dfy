/** The order of `order: { name: 'ASC' }`, taken as code-point
    lexicographic order on names, and the sorted view of the table that
    `findAndCount` pages through. */
module Ordering {

  import opened Entity

  /** `a` sorts no later than `b`. */
  predicate LexLe(a: string, b: string)
    decreases |a|
  {
    |a| == 0 || (|b| > 0 && (a[0] < b[0] || (a[0] == b[0] && LexLe(a[1..], b[1..]))))
  }

  /** Any two names are comparable. */
  lemma {:induction false} LexLeTotal(a: string, b: string)
    ensures LexLe(a, b) || LexLe(b, a)
    decreases |a|
  {
    if |a| > 0 && |b| > 0 && a[0] == b[0] {
      LexLeTotal(a[1..], b[1..]);
    }
  }

  /** The order is transitive. */
  lemma {:induction false} LexLeTransitive(a: string, b: string, c: string)
    requires LexLe(a, b) && LexLe(b, c)
    ensures LexLe(a, c)
    decreases |a|
  {
    if |a| > 0 && a[0] == b[0] && b[0] == c[0] {
      LexLeTransitive(a[1..], b[1..], c[1..]);
    }
  }

  /** Rows in ascending name order. */
  predicate SortedByName(s: seq<User>)
  {
    forall i | 0 < i < |s| :: LexLe(s[i - 1].name, s[i].name)
  }

  /** Insert a row into a sorted sequence before the first row it does
      not follow. */
  function InsertByName(u: User, s: seq<User>): (r: seq<User>)
    requires SortedByName(s)
    ensures SortedByName(r)
    ensures multiset(r) == multiset(s) + multiset{u}
    ensures r[0] == u || (|s| > 0 && r[0] == s[0])
  {
    if s == [] then [u]
    else if LexLe(u.name, s[0].name) then
      ConsSorted(u, s);
      [u] + s
    else
      LexLeTotal(u.name, s[0].name);
      assert s == [s[0]] + s[1..];
      var rest := InsertByName(u, s[1..]);
      assert LexLe(s[0].name, rest[0].name);
      ConsSorted(s[0], rest);
      assert multiset([s[0]] + rest) == multiset{s[0]} + multiset(rest);
      assert multiset(s) == multiset{s[0]} + multiset(s[1..]);
      [s[0]] + rest
  }

  /** A row that precedes the head of a sorted sequence can go in front. */
  lemma ConsSorted(x: User, s: seq<User>)
    requires SortedByName(s) && |s| > 0 && LexLe(x.name, s[0].name)
    ensures SortedByName([x] + s)
  {
    var r := [x] + s;
    forall i | 1 < i < |r| ensures LexLe(r[i - 1].name, r[i].name) {
      assert r[i - 1] == s[i - 2] && r[i] == s[i - 1];
    }
  }

  /** The table as `findAndCount` orders it: the same rows, ascending by
      name. */
  function SortByName(rows: seq<User>): (sorted: seq<User>)
    ensures SortedByName(sorted)
    ensures multiset(sorted) == multiset(rows)
    ensures |sorted| == |rows|
  {
    if rows == [] then []
    else
      assert rows == [rows[0]] + rows[1..];
      InsertByName(rows[0], SortByName(rows[1..]))
  }

  /** In a sorted sequence every row precedes the rows after it, not only
      its neighbour. */
  lemma {:induction false} SortedByNameAll(s: seq<User>, i: int, j: int)
    requires SortedByName(s)
    requires 0 <= i <= j < |s|
    ensures LexLe(s[i].name, s[j].name)
    decreases j - i
  {
    if i == j {
      LexLeReflexive(s[i].name);
    } else {
      SortedByNameAll(s, i, j - 1);
      LexLeTransitive(s[i].name, s[j - 1].name, s[j].name);
    }
  }

  /** Every name sorts no later than itself. */
  lemma {:induction false} LexLeReflexive(a: string)
    ensures LexLe(a, a)
    decreases |a|
  {
    if |a| > 0 {
      LexLeReflexive(a[1..]);
    }
  }
}
