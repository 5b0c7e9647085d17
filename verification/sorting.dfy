/** Insertion sort, as the activity adapter writes it out; sort.Slice promises the same result for distinct keys. */
module Sorting {
  import opened GoText

  method InsertionSort<T(!new)>(a: array<T>, less: (T, T) -> bool)
    requires StrictTotal(less)
    requires Distinct(a[..])
    modifies a
    ensures a[..] == InOrder(Elements(old(a[..])), less)
  {
    ghost var was := a[..];
    var i := 1;
    while i < a.Length
      invariant 1 <= i && (a.Length > 0 ==> i <= a.Length)
      invariant Permuted(was, a[..])
      invariant forall m, n :: 0 <= m < n < i && n < a.Length ==> less(a[m], a[n])
    {
      var j := i;
      while j > 0 && less(a[j], a[j - 1])
        invariant 0 <= j <= i
        invariant Permuted(was, a[..])
        invariant forall m, n :: 0 <= m < n <= i && n != j ==> less(a[m], a[n])
      {
        SwapPermutes(was, a[..], j);
        ghost var before := a[..];
        a[j], a[j - 1] := a[j - 1], a[j];
        assert a[..] == before[j := before[j - 1]][j - 1 := before[j]];
        j := j - 1;
      }
      Settled(a[..], i, j, less);
      i := i + 1;
    }
    InOrderIs(a[..], less);
  }

  /** Map iteration is in no particular order; sorting makes what is listed independent of it. */
  method SortKeys(keys: seq<Text>) returns (sorted: seq<Text>)
    requires Distinct(keys)
    ensures sorted == InKeyOrder(Elements(keys))
  {
    LessIsTotal();
    var a := new Text[|keys|](i requires 0 <= i < |keys| => keys[i]);
    assert a[..] == keys;
    InsertionSort(a, Less);
    sorted := a[..];
  }

  method ListKeys(keys: set<Text>) returns (sorted: seq<Text>)
    ensures sorted == InKeyOrder(keys)
  {
    var listed: seq<Text> := [];
    var rest := keys;
    while rest != {}
      invariant rest <= keys && Distinct(listed) && Elements(listed) == keys - rest
      decreases rest
    {
      var key :| key in rest;
      PushDistinct(listed, key);
      listed := listed + [key];
      rest := rest - {key};
    }
    assert Elements(listed) == keys;
    sorted := SortKeys(listed);
  }

  ghost predicate Distinct<T(!new)>(s: seq<T>) {
    forall i, j :: 0 <= i < j < |s| ==> s[i] != s[j]
  }

  lemma PushDistinct<T(!new)>(s: seq<T>, x: T)
    requires Distinct(s) && x !in Elements(s)
    ensures Distinct(s + [x]) && Elements(s + [x]) == Elements(s) + {x}
  {
    assert forall i :: 0 <= i < |s| ==> s[i] in Elements(s);
    assert (s + [x])[|s|] == x;
    forall y | y in s ensures y in s + [x] {
      var i :| 0 <= i < |s| && s[i] == y;
      assert (s + [x])[i] == y;
    }
  }

  /** b lists the distinct elements of a, in some order. */
  ghost predicate Permuted<T(!new)>(a: seq<T>, b: seq<T>) {
    |a| == |b| && Elements(a) == Elements(b) && Distinct(b)
  }

  lemma SwapPermutes<T(!new)>(a: seq<T>, b: seq<T>, j: nat)
    requires Permuted(a, b) && 0 < j < |b|
    ensures Permuted(a, b[j := b[j - 1]][j - 1 := b[j]])
  {
    var c := b[j := b[j - 1]][j - 1 := b[j]];
    forall x | x in b ensures x in c {
      var i :| 0 <= i < |b| && b[i] == x;
      assert c[if i == j then j - 1 else if i == j - 1 then j else i] == x;
    }
    forall x | x in c ensures x in b {
      var i :| 0 <= i < |c| && c[i] == x;
      assert b[if i == j then j - 1 else if i == j - 1 then j else i] == x;
    }
  }

  /** Once the element at j is not below its left neighbour, the first i + 1 elements ascend. */
  lemma Settled<T(!new)>(s: seq<T>, i: nat, j: nat, less: (T, T) -> bool)
    requires StrictTotal(less) && Distinct(s) && j <= i < |s|
    requires forall m, n :: 0 <= m < n <= i && n != j ==> less(s[m], s[n])
    requires j == 0 || !less(s[j], s[j - 1])
    ensures forall m, n :: 0 <= m < n <= i ==> less(s[m], s[n])
  {
    forall m | 0 <= m < j ensures less(s[m], s[j]) {
      assert less(s[j - 1], s[j]);
      if m < j - 1 { assert less(s[m], s[j - 1]); }
    }
  }
}
