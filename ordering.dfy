/** The ordering a query's `order_by(...)` imposes: keys made of an integer
    rank and a name, compared lexicographically, and a stable sort by key. */
module Ordering {

  /** Lexicographic order on strings, character by character by code point
      (a binary collation); a proper prefix comes first. */
  predicate StrLe(a: string, b: string)
  {
    if a == [] then true
    else if b == [] then false
    else if a[0] != b[0] then a[0] < b[0]
    else StrLe(a[1..], b[1..])
  }

  lemma {:induction false} StrLeTotal(a: string, b: string)
    ensures StrLe(a, b) || StrLe(b, a)
  {
    if a != [] && b != [] && a[0] == b[0] {
      StrLeTotal(a[1..], b[1..]);
    }
  }

  lemma {:induction false} StrLeTransitive(a: string, b: string, c: string)
    requires StrLe(a, b) && StrLe(b, c)
    ensures StrLe(a, c)
  {
    if a != [] && b != [] && c != [] && a[0] == b[0] == c[0] {
      StrLeTransitive(a[1..], b[1..], c[1..]);
    }
  }

  /** A sort key: first the rank (a display position, or a negated time
      stamp for a descending order), then the name. */
  datatype SortKey = SortKey(rank: int, name: string)

  predicate KeyLe(x: SortKey, y: SortKey)
  {
    x.rank < y.rank || (x.rank == y.rank && StrLe(x.name, y.name))
  }

  lemma KeyLeTotal(x: SortKey, y: SortKey)
    ensures KeyLe(x, y) || KeyLe(y, x)
  {
    StrLeTotal(x.name, y.name);
  }

  lemma KeyLeTransitive(x: SortKey, y: SortKey, z: SortKey)
    requires KeyLe(x, y) && KeyLe(y, z)
    ensures KeyLe(x, z)
  {
    if x.rank == y.rank == z.rank {
      StrLeTransitive(x.name, y.name, z.name);
    }
  }

  /** Every earlier element's key is at most every later element's key. */
  ghost predicate SortedBy<T>(s: seq<T>, key: T -> SortKey)
  {
    forall i, j :: 0 <= i < j < |s| ==> KeyLe(key(s[i]), key(s[j]))
  }

  /** Inserts `x` before the first element whose key is not below its own. */
  function Insert<T>(x: T, s: seq<T>, key: T -> SortKey): (r: seq<T>)
    requires SortedBy(s, key)
    ensures multiset(r) == multiset(s) + multiset{x}
    ensures SortedBy(r, key)
  {
    if s == [] then [x]
    else if KeyLe(key(x), key(s[0])) then
      var r := [x] + s;
      assert SortedBy(r, key) by {
        forall j | 1 <= j < |r| ensures KeyLe(key(x), key(r[j])) {
          if j > 1 { KeyLeTransitive(key(x), key(s[0]), key(r[j])); }
        }
      }
      r
    else
      var tail := Insert(x, s[1..], key);
      assert s == [s[0]] + s[1..];
      var r := [s[0]] + tail;
      assert SortedBy(r, key) by {
        KeyLeTotal(key(x), key(s[0]));
        forall j | 1 <= j < |r| ensures KeyLe(key(s[0]), key(r[j])) {
          assert r[j] in multiset(tail);
          if r[j] != x {
            assert r[j] in multiset(s[1..]);
            var k :| 0 <= k < |s[1..]| && s[1..][k] == r[j];
            assert s[k + 1] == r[j];
          }
        }
      }
      r
  }

  /** Insertion sort: a stable sort by key. */
  function SortBy<T>(s: seq<T>, key: T -> SortKey): (r: seq<T>)
    ensures multiset(r) == multiset(s)
    ensures SortedBy(r, key)
  {
    if s == [] then []
    else
      assert s == [s[0]] + s[1..];
      Insert(s[0], SortBy(s[1..], key), key)
  }

  /** Inserting an element whose key is strictly above every key already
      present appends it. */
  lemma {:induction false} InsertGreatest<T>(x: T, s: seq<T>, key: T -> SortKey)
    requires SortedBy(s, key)
    requires forall i :: 0 <= i < |s| ==> !KeyLe(key(x), key(s[i]))
    ensures Insert(x, s, key) == s + [x]
  {
    if s != [] {
      InsertGreatest(x, s[1..], key);
    }
  }
}
