/** Lexicographic order on strings, and the sort-then-dedup idiom the repository uses for id sets. */
module Strings {
  predicate StrLess(a: string, b: string) {
    b != "" && (a == "" || a[0] < b[0] || (a[0] == b[0] && StrLess(a[1..], b[1..])))
  }

  lemma {:induction false} Irreflexive(a: string)
    ensures !StrLess(a, a)
  {
    if a != "" {
      Irreflexive(a[1..]);
    }
  }

  lemma {:induction false} Transitive(a: string, b: string, c: string)
    requires StrLess(a, b) && StrLess(b, c)
    ensures StrLess(a, c)
  {
    if a != "" && a[0] == b[0] == c[0] {
      Transitive(a[1..], b[1..], c[1..]);
    }
  }

  lemma {:induction false} Total(a: string, b: string)
    ensures a == b || StrLess(a, b) || StrLess(b, a)
  {
    if a != "" && b != "" && a[0] == b[0] {
      Total(a[1..], b[1..]);
      assert a == [a[0]] + a[1..] && b == [b[0]] + b[1..];
    }
  }

  /** They agree up to here, and here `a` ends or has the smaller character. */
  predicate DiffersAt(a: string, b: string, k: nat) {
    k < |b| && k <= |a| && a[..k] == b[..k] && (k == |a| || a[k] < b[k])
  }

  /** One string is less than another exactly when it ends or has the smaller character where they first differ. */
  lemma {:induction false} LessExactly(a: string, b: string)
    ensures StrLess(a, b) <==> exists k: nat :: DiffersAt(a, b, k)
  {
    forall k: nat | DiffersAt(a, b, k)
      ensures k > 0 ==> a != "" && a[0] == b[0]
    {
      OpensAlike(a, b, k);
    }
    if a == "" || b == "" || a[0] != b[0] {
      if b != "" && (a == "" || a[0] < b[0]) {
        assert DiffersAt(a, b, 0);
      }
    } else {
      LessExactly(a[1..], b[1..]);
      DiffersLater(a, b);
    }
  }

  lemma OpensAlike(a: string, b: string, k: nat)
    requires DiffersAt(a, b, k)
    ensures k > 0 ==> a != "" && a[0] == b[0]
  {
    if k > 0 {
      assert a[..k][0] == b[..k][0];
    }
  }

  lemma DiffersLater(a: string, b: string)
    requires a != "" && b != "" && a[0] == b[0]
    ensures (exists k: nat :: DiffersAt(a, b, k)) <==> exists k: nat :: DiffersAt(a[1..], b[1..], k)
  {
    if k: nat :| DiffersAt(a, b, k) {
      assert a[1..][..k - 1] == a[..k][1..] && b[1..][..k - 1] == b[..k][1..];
      assert DiffersAt(a[1..], b[1..], k - 1);
    }
    if k: nat :| DiffersAt(a[1..], b[1..], k) {
      assert a[..k + 1] == [a[0]] + a[1..][..k] && b[..k + 1] == [b[0]] + b[1..][..k];
      assert DiffersAt(a, b, k + 1);
    }
  }

  ghost predicate StrictlySorted(s: seq<string>) {
    forall i, j | 0 <= i < j < |s| :: StrLess(s[i], s[j])
  }

  /** A strictly sorted sequence is determined by its elements. */
  lemma {:induction false} SortedUnique(a: seq<string>, b: seq<string>)
    requires StrictlySorted(a) && StrictlySorted(b)
    requires forall x :: x in a <==> x in b
    ensures a == b
  {
    assert a != [] ==> a[0] in b;
    assert b != [] ==> b[0] in a;
    if a != [] && b != [] {
      SameHead(a, b);
      SameTail(a, b);
      SameTail(b, a);
      SortedUnique(a[1..], b[1..]);
      assert a == [a[0]] + a[1..] && b == [b[0]] + b[1..];
    }
  }

  lemma SameHead(a: seq<string>, b: seq<string>)
    requires StrictlySorted(a) && StrictlySorted(b) && a != [] && b != []
    requires forall x :: x in a <==> x in b
    ensures a[0] == b[0]
  {
    assert a[0] in b && b[0] in a;
    if a[0] != b[0] {
      assert StrLess(b[0], a[0]) && StrLess(a[0], b[0]);
      Transitive(a[0], b[0], a[0]);
      Irreflexive(a[0]);
    }
  }

  lemma SameTail(a: seq<string>, b: seq<string>)
    requires StrictlySorted(a) && StrictlySorted(b) && a != [] && b != [] && a[0] == b[0]
    requires forall x :: x in a <==> x in b
    ensures forall x :: x in a[1..] ==> x in b[1..]
  {
    forall x | x in a[1..]
      ensures x in b[1..]
    {
      Irreflexive(x);
      assert x in b && x != b[0];
    }
  }

  /** The position before which every element of the sorted sequence is less than `x`. */
  method Position(s: seq<string>, x: string) returns (k: nat)
    requires StrictlySorted(s)
    ensures k <= |s| && (forall i | 0 <= i < k :: StrLess(s[i], x)) && (k < |s| ==> !StrLess(s[k], x))
  {
    k := 0;
    while k < |s| && StrLess(s[k], x)
      invariant k <= |s| && forall i | 0 <= i < k :: StrLess(s[i], x)
    {
      k := k + 1;
    }
  }

  lemma InsertKeepsSorted(s: seq<string>, k: nat, x: string)
    requires StrictlySorted(s) && k <= |s| && (forall i | 0 <= i < k :: StrLess(s[i], x))
    requires k < |s| ==> StrLess(x, s[k])
    ensures StrictlySorted(s[..k] + [x] + s[k..])
  {
    forall i | k <= i < |s|
      ensures StrLess(x, s[i])
    {
      if i > k {
        Transitive(x, s[k], s[i]);
      }
    }
  }

  /** Sort, then drop duplicates. */
  method SortDedup(items: seq<string>) returns (r: seq<string>)
    ensures StrictlySorted(r)
    ensures forall x :: x in r <==> x in items
  {
    r := [];
    for n := 0 to |items|
      invariant StrictlySorted(r)
      invariant forall x :: x in r <==> x in items[..n]
    {
      var x := items[n];
      var k := Position(r, x);
      if k == |r| || r[k] != x {
        if k < |r| {
          Total(x, r[k]);
        }
        InsertKeepsSorted(r, k, x);
        r := r[..k] + [x] + r[k..];
      }
      assert items[..n + 1] == items[..n] + [x];
    }
    assert items[..|items|] == items;
  }
}
