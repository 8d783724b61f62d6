/** The orders the game sorts by: an integer first, a name second. */
module Orders {

  /** Go's `<` on strings: the lexicographic order. */
  predicate Before(a: string, b: string)
  {
    if b == [] then false
    else if a == [] then true
    else if a[0] != b[0] then a[0] < b[0]
    else Before(a[1..], b[1..])
  }

  /** The first place where two strings differ decides; if one ends there, it comes first. */
  lemma {:induction false} BeforeDecided(a: string, b: string) returns (k: nat)
    ensures k <= |a| && k <= |b| && a[..k] == b[..k] && (k < |a| && k < |b| ==> a[k] != b[k])
    ensures Before(a, b) <==> k < |b| && (k == |a| || a[k] < b[k])
  {
    k := 0;
    if a != [] && b != [] && a[0] == b[0] {
      var rest := BeforeDecided(a[1..], b[1..]);
      k := rest + 1;
      assert a[..k] == [a[0]] + a[1..][..rest] && b[..k] == [b[0]] + b[1..][..rest];
    }
  }

  lemma {:induction false} BeforeIrreflexive(a: string)
    ensures !Before(a, a)
  {
    if a != [] {
      BeforeIrreflexive(a[1..]);
    }
  }

  lemma {:induction false} BeforeTransitive(a: string, b: string, c: string)
    requires Before(a, b) && Before(b, c)
    ensures Before(a, c)
  {
    if a != [] && a[0] == b[0] == c[0] {
      BeforeTransitive(a[1..], b[1..], c[1..]);
    }
  }

  lemma {:induction false} BeforeTotal(a: string, b: string)
    ensures a == b || Before(a, b) || Before(b, a)
  {
    if a != [] && b != [] && a[0] == b[0] {
      BeforeTotal(a[1..], b[1..]);
      assert a == [a[0]] + a[1..] && b == [b[0]] + b[1..];
    }
  }

  /** A sort key: the stack order or creation time, with the name as tie-break. */
  datatype Key = Key(order: int, name: string)

  predicate Less(a: Key, b: Key)
  {
    if a.order != b.order then a.order < b.order else Before(a.name, b.name)
  }

  lemma LessIrreflexive(a: Key)
    ensures !Less(a, a)
  {
    BeforeIrreflexive(a.name);
  }

  lemma LessTransitive(a: Key, b: Key, c: Key)
    requires Less(a, b) && Less(b, c)
    ensures Less(a, c)
  {
    if a.order == b.order == c.order {
      BeforeTransitive(a.name, b.name, c.name);
    }
  }

  lemma LessTotal(a: Key, b: Key)
    ensures a == b || Less(a, b) || Less(b, a)
  {
    BeforeTotal(a.name, b.name);
  }

  lemma LessAsymmetric(a: Key, b: Key)
    requires Less(a, b)
    ensures !Less(b, a)
  {
    if Less(b, a) {
      LessTransitive(a, b, a);
      LessIrreflexive(a);
    }
  }

  /** Sorted, with ties allowed: what `sort.Slice` promises. */
  ghost predicate NonDescending<T>(key: T -> Key, s: seq<T>)
  {
    forall i, j :: 0 <= i < j < |s| ==> !Less(key(s[j]), key(s[i]))
  }

  /** Sorted without ties. */
  ghost predicate Ascending<T>(key: T -> Key, s: seq<T>)
  {
    forall i, j :: 0 <= i < j < |s| ==> Less(key(s[i]), key(s[j]))
  }

  ghost predicate DistinctKeys<T>(key: T -> Key, s: seq<T>)
  {
    forall i, j :: 0 <= i < j < |s| ==> key(s[i]) != key(s[j])
  }

  /** A strictly ascending list is determined by its members alone. */
  lemma {:induction false} AscendingUnique<T>(key: T -> Key, a: seq<T>, b: seq<T>)
    requires Ascending(key, a) && Ascending(key, b)
    requires forall x :: x in a <==> x in b
    ensures a == b
  {
    assert |b| > 0 ==> b[0] in b && b[0] in a;
    assert a == [] ==> b == [];
    if a != [] {
      assert a[0] in b && b[0] in a;
      var i :| 0 <= i < |b| && b[i] == a[0];
      var j :| 0 <= j < |a| && a[j] == b[0];
      if i > 0 && j > 0 {
        LessAsymmetric(key(a[0]), key(a[j]));
      }
      LessIrreflexive(key(a[0]));
      forall x ensures x in a[1..] <==> x in b[1..] {
        if x in a[1..] { assert x in a; assert x in b; }
        if x in b[1..] { assert x in b; assert x in a; }
      }
      AscendingUnique(key, a[1..], b[1..]);
      assert a == [a[0]] + a[1..] && b == [b[0]] + b[1..];
    }
  }

  function Insert<T>(key: T -> Key, x: T, s: seq<T>): seq<T>
  {
    if s == [] || !Less(key(s[0]), key(x)) then [x] + s else [s[0]] + Insert(key, x, s[1..])
  }

  /** Stands for `sort.Slice`; `AnySortAgrees` shows the algorithm is immaterial. */
  function SortBy<T>(key: T -> Key, s: seq<T>): seq<T>
  {
    if s == [] then [] else Insert(key, s[0], SortBy(key, s[1..]))
  }

  lemma {:induction false} InsertSorts<T>(key: T -> Key, x: T, s: seq<T>)
    requires NonDescending(key, s)
    ensures multiset(Insert(key, x, s)) == multiset([x]) + multiset(s)
    ensures NonDescending(key, Insert(key, x, s))
  {
    if s == [] || !Less(key(s[0]), key(x)) {
      forall i, j | 0 <= i < j < |[x] + s| ensures !Less(key(([x] + s)[j]), key(([x] + s)[i])) {
        if i == 0 && j > 1 && Less(key(s[j - 1]), key(x)) {
          LessTotal(key(s[0]), key(s[j - 1]));
          if Less(key(s[0]), key(s[j - 1])) {
            LessTransitive(key(s[0]), key(s[j - 1]), key(x));
          }
        }
      }
    } else {
      assert s == [s[0]] + s[1..];
      InsertSorts(key, x, s[1..]);
      var t := Insert(key, x, s[1..]);
      LessAsymmetric(key(s[0]), key(x));
      forall y | y in t ensures !Less(key(y), key(s[0])) {
        assert y in multiset(t);
        assert y == x || y in s[1..];
      }
    }
  }

  lemma {:induction false} SortBySorts<T>(key: T -> Key, s: seq<T>)
    ensures multiset(SortBy(key, s)) == multiset(s)
    ensures NonDescending(key, SortBy(key, s))
  {
    if s != [] {
      SortBySorts(key, s[1..]);
      assert s == [s[0]] + s[1..];
      InsertSorts(key, s[0], SortBy(key, s[1..]));
    }
  }

  lemma SameMembers<T>(r: seq<T>, s: seq<T>)
    requires multiset(r) == multiset(s)
    ensures |r| == |s|
    ensures forall x :: x in r <==> x in s
  {
    assert |r| == |multiset(r)| == |multiset(s)| == |s|;
    forall x ensures x in r <==> x in s {
      assert x in r <==> x in multiset(r);
      assert x in s <==> x in multiset(s);
    }
  }

  lemma MultisetCount<T>(s: seq<T>, i: int, j: int)
    requires 0 <= i < j < |s| && s[i] == s[j]
    ensures multiset(s)[s[i]] >= 2
  {
    assert s == s[..j] + [s[j]] + s[j + 1..];
    assert s[i] in s[..j];
    assert multiset(s) == multiset(s[..j]) + multiset([s[j]]) + multiset(s[j + 1..]);
  }

  lemma {:induction false} DistinctCount<T>(key: T -> Key, s: seq<T>, x: T)
    requires DistinctKeys(key, s)
    ensures multiset(s)[x] <= 1
  {
    if s != [] {
      DistinctCount(key, s[1..], x);
      assert s == [s[0]] + s[1..];
      forall y | y in s[1..] ensures y != s[0] {
        var i :| 0 <= i < |s[1..]| && s[1..][i] == y;
        assert key(s[0]) != key(s[i + 1]);
      }
    }
  }

  /** A sorted permutation of a list with distinct keys is strictly ascending. */
  lemma SortedIsAscending<T>(key: T -> Key, r: seq<T>, s: seq<T>)
    requires multiset(r) == multiset(s) && NonDescending(key, r)
    requires DistinctKeys(key, s)
    ensures Ascending(key, r)
  {
    SameMembers(r, s);
    forall i, j | 0 <= i < j < |r| ensures Less(key(r[i]), key(r[j])) {
      LessTotal(key(r[i]), key(r[j]));
      if key(r[i]) == key(r[j]) {
        assert r[i] in s && r[j] in s;
        assert r[i] == r[j];
        MultisetCount(r, i, j);
        DistinctCount(key, s, r[i]);
      }
    }
  }

  /** Whatever algorithm sorts a list with distinct keys, and however the list was ordered, the result is the same. */
  lemma {:induction false} AnySortAgrees<T>(key: T -> Key, r: seq<T>, s: seq<T>)
    requires multiset(r) == multiset(s) && NonDescending(key, r)
    requires DistinctKeys(key, s)
    ensures r == SortBy(key, s)
  {
    SortBySorts(key, s);
    SortedIsAscending(key, r, s);
    SortedIsAscending(key, SortBy(key, s), s);
    SameMembers(r, s);
    SameMembers(SortBy(key, s), s);
    AscendingUnique(key, r, SortBy(key, s));
  }
}
