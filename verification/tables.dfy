/** Tables as sequences of rows in storage order, with the lookups, filters
    and key constraints the stores need. */
module Tables {
  import opened Wrappers

  /** The index of the first row satisfying `p`. */
  function FindFirst<T>(s: seq<T>, p: T -> bool): (r: Option<nat>)
    ensures r.Some? ==> r.value < |s| && p(s[r.value]) && forall j :: 0 <= j < r.value ==> !p(s[j])
    ensures r.None? <==> forall j :: 0 <= j < |s| ==> !p(s[j])
  {
    if s == [] then None
    else if p(s[0]) then Some(0)
    else match FindFirst(s[1..], p)
      case None => None
      case Some(k) => Some(k + 1)
  }

  /** The rows satisfying `p`, in storage order. */
  function Filter<T(!new)>(s: seq<T>, p: T -> bool): (r: seq<T>)
    ensures |r| <= |s|
    ensures forall x :: x in r <==> x in s && p(x)
  {
    if s == [] then []
    else (if p(s[0]) then [s[0]] else []) + Filter(s[1..], p)
  }

  /** Filtering keeps storage order: it distributes over concatenation. */
  lemma {:induction false} FilterConcat<T(!new)>(a: seq<T>, b: seq<T>, p: T -> bool)
    ensures Filter(a + b, p) == Filter(a, p) + Filter(b, p)
    decreases |a|
  {
    if a != [] {
      assert (a + b)[1..] == a[1..] + b;
      FilterConcat(a[1..], b, p);
    } else {
      assert a + b == b;
    }
  }

  /** No two rows share a key. */
  predicate Distinct<T, K(==)>(s: seq<T>, key: T -> K) {
    forall i, j :: 0 <= i < j < |s| ==> key(s[i]) != key(s[j])
  }

  /** Appending a row whose key is new keeps the keys distinct. */
  lemma DistinctAppend<T, K>(s: seq<T>, x: T, key: T -> K)
    requires Distinct(s, key)
    requires forall i :: 0 <= i < |s| ==> key(s[i]) != key(x)
    ensures Distinct(s + [x], key)
  {
  }

  /** Replacing a row by one whose key no other row has keeps the keys distinct. */
  lemma DistinctReplace<T, K>(s: seq<T>, k: nat, x: T, key: T -> K)
    requires k < |s| && Distinct(s, key)
    requires forall i :: 0 <= i < |s| && i != k ==> key(s[i]) != key(x)
    ensures Distinct(s[k := x], key)
  {
  }

  /** The index of the first row whose key is `v`. */
  function FindKey<T, K(==)>(s: seq<T>, key: T -> K, v: K): (r: Option<nat>)
    ensures r.Some? ==> r.value < |s| && key(s[r.value]) == v
    ensures r.Some? ==> forall j :: 0 <= j < r.value ==> key(s[j]) != v
    ensures r.None? <==> forall j :: 0 <= j < |s| ==> key(s[j]) != v
  {
    if s == [] then None
    else if key(s[0]) == v then Some(0)
    else match FindKey(s[1..], key, v)
      case None => None
      case Some(k) => Some(k + 1)
  }

  /** With distinct keys the row with a given key is the only one with it. */
  lemma DistinctFindKey<T, K>(s: seq<T>, key: T -> K, k: nat)
    requires Distinct(s, key) && k < |s|
    ensures FindKey(s, key, key(s[k])) == Some(k)
  {
  }

  /** The keys present in a table. */
  function Keys<T, K>(s: seq<T>, key: T -> K): (r: set<K>)
    ensures forall i :: 0 <= i < |s| ==> key(s[i]) in r
    ensures forall v :: v in r ==> exists i :: 0 <= i < |s| && key(s[i]) == v
  {
    set i | 0 <= i < |s| :: key(s[i])
  }

  /** A key lookup succeeds exactly for the keys present. */
  lemma FindKeyKeys<T, K>(s: seq<T>, key: T -> K, v: K)
    ensures FindKey(s, key, v).Some? <==> v in Keys(s, key)
  {
  }

  /** Appending a row adds its key. */
  lemma KeysAppend<T, K>(s: seq<T>, x: T, key: T -> K)
    ensures Keys(s + [x], key) == Keys(s, key) + {key(x)}
  {
    var a, b := Keys(s + [x], key), Keys(s, key) + {key(x)};
    forall v | v in a ensures v in b {
      var i :| 0 <= i < |s + [x]| && key((s + [x])[i]) == v;
      if i < |s| { assert (s + [x])[i] == s[i]; }
    }
    forall v | v in b ensures v in a {
      if v == key(x) { assert (s + [x])[|s|] == x; }
      else { var i :| 0 <= i < |s| && key(s[i]) == v; assert (s + [x])[i] == s[i]; }
    }
  }

  /** Replacing a row by one with the same key keeps the keys. */
  lemma KeysReplace<T, K>(s: seq<T>, k: nat, x: T, key: T -> K)
    requires k < |s| && key(x) == key(s[k])
    ensures Keys(s[k := x], key) == Keys(s, key)
  {
    var a, b := Keys(s[k := x], key), Keys(s, key);
    forall v | v in a ensures v in b {
      var i :| 0 <= i < |s| && key(s[k := x][i]) == v;
    }
    forall v | v in b ensures v in a {
      var i :| 0 <= i < |s| && key(s[i]) == v;
      assert key(s[k := x][i]) == v;
    }
  }

  /** The first row with key `v` is the one `FindKey` reports. */
  lemma {:induction false} FindKeyAt<T, K>(s: seq<T>, key: T -> K, v: K, k: nat)
    requires k < |s| && key(s[k]) == v
    requires forall j :: 0 <= j < k ==> key(s[j]) != v
    ensures FindKey(s, key, v) == Some(k)
    decreases k
  {
    if k > 0 {
      FindKeyAt(s[1..], key, v, k - 1);
    }
  }

  /** The position of the first row equal to `x`. */
  function IndexOf<T(==)>(s: seq<T>, x: T): (k: nat)
    requires x in s
    ensures k < |s| && s[k] == x
  {
    if s[0] == x then 0 else 1 + IndexOf(s[1..], x)
  }

  /** Each row transformed, in order. */
  function MapSeq<A, B>(s: seq<A>, f: A -> B): (r: seq<B>)
    ensures |r| == |s| && forall i :: 0 <= i < |s| ==> r[i] == f(s[i])
  {
    if s == [] then [] else [f(s[0])] + MapSeq(s[1..], f)
  }

  /** The transformed rows are exactly the images of the rows. */
  lemma MapSeqMembers<A, B>(s: seq<A>, f: A -> B)
    ensures forall y :: y in MapSeq(s, f) <==> exists x :: x in s && y == f(x)
  {
    var r := MapSeq(s, f);
    forall y | y in r ensures exists x :: x in s && y == f(x) {
      var i :| 0 <= i < |r| && r[i] == y;
      assert s[i] in s;
    }
    forall x | x in s ensures f(x) in r {
      var i :| 0 <= i < |s| && s[i] == x;
      assert r[i] == f(x);
    }
  }

  lemma MapSeqConcat<A, B>(a: seq<A>, b: seq<A>, f: A -> B)
    ensures MapSeq(a + b, f) == MapSeq(a, f) + MapSeq(b, f)
  {
  }

  /** Appending a row with another key leaves a key lookup as it was. */
  lemma FindKeyAppendOther<T, K>(s: seq<T>, x: T, key: T -> K, v: K)
    requires key(x) != v
    ensures FindKey(s + [x], key, v) == FindKey(s, key, v)
  {
    match FindKey(s, key, v)
    case Some(k) => FindKeyAt(s + [x], key, v, k);
    case None => assert forall j :: 0 <= j < |s| + 1 ==> key((s + [x])[j]) != v by {
      forall j | 0 <= j < |s| + 1 ensures key((s + [x])[j]) != v {
        if j < |s| { assert (s + [x])[j] == s[j]; }
      }
    }
  }

  /** Replacing a row, when neither the old nor the new row has key `v`,
      leaves the lookup of `v` as it was. */
  lemma FindKeyReplaceOther<T, K>(s: seq<T>, k: nat, x: T, key: T -> K, v: K)
    requires k < |s| && key(x) != v && key(s[k]) != v
    ensures FindKey(s[k := x], key, v) == FindKey(s, key, v)
  {
    match FindKey(s, key, v)
    case Some(f) => FindKeyAt(s[k := x], key, v, f);
    case None =>
      var s' := s[k := x];
      assert forall j :: 0 <= j < |s'| ==> key(s'[j]) != v;
  }
}
