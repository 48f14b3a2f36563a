/** The byte-wise order on names and paths, and sorted lists under it. A Rust
    `String` compares by its UTF-8 bytes, which is the order of code points. */
module Ordering {
  predicate Less(a: string, b: string) {
    b != "" && (a == "" || a[0] < b[0] || (a[0] == b[0] && Less(a[1..], b[1..])))
  }

  lemma {:induction false} LessTransitive(a: string, b: string, c: string)
    requires Less(a, b) && Less(b, c)
    ensures Less(a, c)
  {
    if a != "" && a[0] == b[0] == c[0] {
      LessTransitive(a[1..], b[1..], c[1..]);
    }
  }

  /** Exactly one of "before", "equal" and "after" holds. */
  lemma {:induction false} LessTrichotomy(a: string, b: string)
    ensures Less(a, b) || a == b || Less(b, a)
    ensures !(Less(a, b) && Less(b, a))
    ensures a == b ==> !Less(a, b)
  {
    if a != "" && b != "" && a[0] == b[0] {
      LessTrichotomy(a[1..], b[1..]);
      assert a == [a[0]] + a[1..] && b == [b[0]] + b[1..];
    }
  }

  // ---- lists in the order of a key -------------------------------------------------------

  ghost predicate StrictOrder<K(!new)>(less: (K, K) -> bool) {
    && (forall a, b, c :: less(a, b) && less(b, c) ==> less(a, c))
    && (forall a, b :: less(a, b) || a == b || less(b, a))
    && (forall a, b :: !(less(a, b) && less(b, a)))
  }

  lemma LessIsStrict()
    ensures StrictOrder(Less)
  {
    forall a, b, c | Less(a, b) && Less(b, c) ensures Less(a, c) { LessTransitive(a, b, c); }
    forall a, b ensures Less(a, b) || a == b || Less(b, a) ensures !(Less(a, b) && Less(b, a)) { LessTrichotomy(a, b); }
  }

  ghost predicate SortedBy<T(!new)>(s: seq<T>, key: T -> string, less: (string, string) -> bool) {
    forall i, j :: 0 <= i < j < |s| ==> less(key(s[i]), key(s[j]))
  }

  /** Insert an element whose key is new. */
  function InsertBy<T(!new)>(s: seq<T>, x: T, key: T -> string, less: (string, string) -> bool): (r: seq<T>)
    requires StrictOrder(less)
    requires SortedBy(s, key, less) && forall y :: y in s ==> key(y) != key(x)
    ensures SortedBy(r, key, less) && forall y :: y in r <==> y == x || y in s
  {
    if s == [] then [x]
    else if less(key(x), key(s[0])) then [x] + s
    else
      assert s[0] in s && less(key(s[0]), key(x));
      var t := InsertBy(s[1..], x, key, less);
      assert forall y :: y in t ==> less(key(s[0]), key(y)) by {
        forall y | y in t ensures less(key(s[0]), key(y)) {
          if y != x { var k :| 0 <= k < |s[1..]| && s[1..][k] == y; assert s[k + 1] == y; }
        }
      }
      assert s == [s[0]] + s[1..];
      [s[0]] + t
  }

  /** A sorted list is determined by its elements. */
  lemma {:induction false} SortedUnique<T(!new)>(a: seq<T>, b: seq<T>, key: T -> string, less: (string, string) -> bool)
    requires StrictOrder(less) && SortedBy(a, key, less) && SortedBy(b, key, less)
    requires forall x :: x in a <==> x in b
    ensures a == b
    decreases |a|
  {
    assert b == [] || b[0] in b;
    if a != [] {
      assert a[0] in b;
      assert b[0] in a;
      var i :| 0 <= i < |b| && b[i] == a[0];
      var j :| 0 <= j < |a| && a[j] == b[0];
      assert a[0] == b[0];
      forall x ensures x in a[1..] <==> x in b[1..] {
        NotFirstAgain(a, x, key, less);
        NotFirstAgain(b, x, key, less);
      }
      SortedUnique(a[1..], b[1..], key, less);
      assert a == [a[0]] + a[1..] && b == [b[0]] + b[1..];
    }
  }

  lemma NotFirstAgain<T(!new)>(a: seq<T>, x: T, key: T -> string, less: (string, string) -> bool)
    requires StrictOrder(less) && SortedBy(a, key, less) && a != []
    ensures x in a[1..] <==> x in a && x != a[0]
  {
    if x in a[1..] {
      var k :| 0 <= k < |a[1..]| && a[1..][k] == x;
      assert a[k + 1] == x;
    }
    if x in a && x != a[0] {
      var k :| 0 <= k < |a| && a[k] == x;
      assert a[1..][k - 1] == x;
    }
  }

  // ---- lists of names -------------------------------------------------------------------------

  predicate Ascending(s: seq<string>) {
    forall i, j :: 0 <= i < j < |s| ==> Less(s[i], s[j])
  }

  function Itself(s: string): string {
    s
  }

  /** Insert a name an ascending list does not have. */
  function Insert(s: seq<string>, x: string): (r: seq<string>)
    requires Ascending(s) && x !in s
    ensures Ascending(r)
    ensures forall y :: y in r <==> y == x || y in s
  {
    LessIsStrict();
    InsertBy(s, x, Itself, Less)
  }

  /** An ascending list is determined by its elements. */
  lemma AscendingUnique(s: seq<string>, t: seq<string>)
    requires Ascending(s) && Ascending(t)
    requires forall x :: x in s <==> x in t
    ensures s == t
  {
    LessIsStrict();
    SortedUnique(s, t, Itself, Less);
  }

  ghost predicate ListsAscending(r: seq<string>, names: set<string>) {
    Ascending(r) && forall x :: x in r <==> x in names
  }

  lemma {:induction false} AscendingExists(names: set<string>)
    ensures exists r :: ListsAscending(r, names)
  {
    if names == {} {
      assert ListsAscending([], names);
    } else {
      var x :| x in names;
      AscendingExists(names - {x});
      var rest :| ListsAscending(rest, names - {x});
      assert ListsAscending(Insert(rest, x), names);
    }
  }

  /** The elements of a finite set of names, in ascending order. */
  ghost function Sorted(names: set<string>): (r: seq<string>)
    ensures ListsAscending(r, names)
  {
    AscendingExists(names);
    var r :| ListsAscending(r, names);
    r
  }
}
