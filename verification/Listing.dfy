/** The manifest listing of the store, put in the order of the hashes the manifests claim. */
module Listing {
  import opened Wire
  import opened Crypto
  import opened Records
  import opened Strings

  /** A hash as text; hashes compare as their texts do, byte by byte. */
  function KeyOf(h: Hash): string {
    seq(32, i requires 0 <= i < 32 => h[i] as char)
  }

  lemma KeysDiffer(g: Hash, h: Hash)
    requires KeyOf(g) == KeyOf(h)
    ensures g == h
  {
    forall i | 0 <= i < 32
      ensures g[i] == h[i]
    {
      assert KeyOf(g)[i] == KeyOf(h)[i];
      assert (g[i] as char) as int == g[i] && (h[i] as char) as int == h[i];
    }
  }

  predicate Precedes(g: Hash, h: Hash) {
    StrLess(KeyOf(g), KeyOf(h))
  }

  /** No manifest stands after one of a greater hash. */
  ghost predicate InOrder(ms: seq<Manifest>) {
    forall i, j | 0 <= i < j < |ms| :: !Precedes(ms[j].hash, ms[i].hash)
  }

  /** The manifest behind every one that does not exceed it, so that equal hashes keep their order. */
  function Placed(ms: seq<Manifest>, m: Manifest): seq<Manifest> {
    if ms == [] || !Precedes(m.hash, ms[|ms| - 1].hash) then ms + [m]
    else Placed(ms[..|ms| - 1], m) + [ms[|ms| - 1]]
  }

  function ByHash(ms: seq<Manifest>): seq<Manifest> {
    if ms == [] then [] else Placed(ByHash(ms[..|ms| - 1]), ms[|ms| - 1])
  }

  lemma {:induction false} PlacedKeeps(ms: seq<Manifest>, m: Manifest)
    ensures multiset(Placed(ms, m)) == multiset(ms) + multiset{m}
  {
    if ms != [] && Precedes(m.hash, ms[|ms| - 1].hash) {
      PlacedKeeps(ms[..|ms| - 1], m);
      assert ms == ms[..|ms| - 1] + [ms[|ms| - 1]];
    }
  }

  lemma PlacedOnto(sorted: seq<Manifest>, init: seq<Manifest>, m: Manifest)
    requires multiset(sorted) == multiset(init)
    ensures multiset(Placed(sorted, m)) == multiset(init + [m])
  {
    PlacedKeeps(sorted, m);
  }

  lemma PlacedHas(ms: seq<Manifest>, m: Manifest, x: Manifest)
    ensures x in Placed(ms, m) <==> x in ms || x == m
  {
    PlacedKeeps(ms, m);
    assert x in Placed(ms, m) <==> x in multiset(Placed(ms, m));
  }

  lemma NotAfterPrecedes(a: Hash, b: Hash, c: Hash)
    requires !Precedes(b, a) && !Precedes(c, b)
    ensures !Precedes(c, a)
  {
    if Precedes(c, a) {
      Total(KeyOf(a), KeyOf(b));
      if Precedes(a, b) {
        Transitive(KeyOf(c), KeyOf(a), KeyOf(b));
      }
    }
  }

  lemma AppendInOrder(ms: seq<Manifest>, m: Manifest)
    requires InOrder(ms) && forall x | x in ms :: !Precedes(m.hash, x.hash)
    ensures InOrder(ms + [m])
  {
  }

  lemma LastIsGreatest(ms: seq<Manifest>, m: Manifest, x: Manifest)
    requires InOrder(ms) && x in ms && !Precedes(m.hash, ms[|ms| - 1].hash)
    ensures !Precedes(m.hash, x.hash)
  {
    var i :| 0 <= i < |ms| && ms[i] == x;
    if i < |ms| - 1 {
      NotAfterPrecedes(x.hash, ms[|ms| - 1].hash, m.hash);
    }
  }

  lemma {:induction false} PlacedInOrder(ms: seq<Manifest>, m: Manifest)
    requires InOrder(ms)
    ensures InOrder(Placed(ms, m))
  {
    if ms == [] || !Precedes(m.hash, ms[|ms| - 1].hash) {
      forall x | x in ms
        ensures !Precedes(m.hash, x.hash)
      {
        LastIsGreatest(ms, m, x);
      }
      AppendInOrder(ms, m);
    } else {
      var init, last := ms[..|ms| - 1], ms[|ms| - 1];
      PlacedInOrder(init, m);
      forall x | x in Placed(init, m)
        ensures !Precedes(last.hash, x.hash)
      {
        PlacedHas(init, m, x);
        NeverBoth(m.hash, last.hash);
      }
      AppendInOrder(Placed(init, m), last);
    }
  }

  lemma NeverBoth(g: Hash, h: Hash)
    ensures !(Precedes(g, h) && Precedes(h, g))
  {
    if Precedes(g, h) && Precedes(h, g) {
      Transitive(KeyOf(g), KeyOf(h), KeyOf(g));
      Irreflexive(KeyOf(g));
    }
  }

  /** The listing put in order is a rearrangement of it. */
  lemma {:induction false} ByHashSorts(ms: seq<Manifest>)
    ensures InOrder(ByHash(ms)) && multiset(ByHash(ms)) == multiset(ms)
  {
    if ms != [] {
      var init, last := ms[..|ms| - 1], ms[|ms| - 1];
      ByHashSorts(init);
      PlacedInOrder(ByHash(init), last);
      PlacedOnto(ByHash(init), init, last);
      assert ms == init + [last];
    }
  }

  /** Sort by hash, equal hashes in the order they came. */
  method SortByHash(ms: seq<Manifest>) returns (r: seq<Manifest>)
    ensures r == ByHash(ms) && InOrder(r) && multiset(r) == multiset(ms)
  {
    r := [];
    for n := 0 to |ms|
      invariant r == ByHash(ms[..n])
    {
      assert ms[..n + 1][..n] == ms[..n];
      r := Place(r, ms[n]);
    }
    assert ms[..|ms|] == ms;
    ByHashSorts(ms);
  }

  method Place(ms: seq<Manifest>, m: Manifest) returns (r: seq<Manifest>)
    ensures r == Placed(ms, m)
  {
    var k := |ms|;
    assert ms[..k] == ms && ms[k..] == [];
    while k > 0 && Precedes(m.hash, ms[k - 1].hash)
      invariant 0 <= k <= |ms| && Placed(ms, m) == Placed(ms[..k], m) + ms[k..]
    {
      k := k - 1;
      assert ms[..k + 1][..k] == ms[..k] && ms[k..] == [ms[k]] + ms[k + 1..];
    }
    r := ms[..k] + [m] + ms[k..];
  }

  // ---- one order ----

  ghost predicate DistinctHashes(ms: seq<Manifest>) {
    forall i, j | 0 <= i < j < |ms| :: ms[i].hash != ms[j].hash
  }

  lemma AppendDistinct(ms: seq<Manifest>, m: Manifest)
    requires DistinctHashes(ms) && forall x | x in ms :: x.hash != m.hash
    ensures DistinctHashes(ms + [m])
  {
  }

  lemma {:induction false} PlacedDistinct(ms: seq<Manifest>, m: Manifest)
    requires DistinctHashes(ms) && forall x | x in ms :: x.hash != m.hash
    ensures DistinctHashes(Placed(ms, m))
  {
    if ms == [] || !Precedes(m.hash, ms[|ms| - 1].hash) {
      AppendDistinct(ms, m);
    } else {
      var init, last := ms[..|ms| - 1], ms[|ms| - 1];
      PlacedDistinct(init, m);
      forall x | x in Placed(init, m)
        ensures x.hash != last.hash
      {
        PlacedHas(init, m, x);
      }
      AppendDistinct(Placed(init, m), last);
    }
  }

  lemma ByHashHas(ms: seq<Manifest>, x: Manifest)
    ensures x in ByHash(ms) <==> x in ms
  {
    ByHashSorts(ms);
    assert x in ByHash(ms) <==> x in multiset(ByHash(ms));
  }

  lemma {:induction false} ByHashDistinct(ms: seq<Manifest>)
    requires DistinctHashes(ms)
    ensures DistinctHashes(ByHash(ms))
  {
    if ms != [] {
      var init, last := ms[..|ms| - 1], ms[|ms| - 1];
      ByHashDistinct(init);
      forall x | x in ByHash(init)
        ensures x.hash != last.hash
      {
        ByHashHas(init, x);
      }
      PlacedDistinct(ByHash(init), last);
    }
  }

  function Keys(ms: seq<Manifest>): seq<string> {
    seq(|ms|, i requires 0 <= i < |ms| => KeyOf(ms[i].hash))
  }

  lemma KeysAscend(ms: seq<Manifest>)
    requires InOrder(ms) && DistinctHashes(ms)
    ensures StrictlySorted(Keys(ms))
  {
    forall i, j | 0 <= i < j < |ms|
      ensures StrLess(Keys(ms)[i], Keys(ms)[j])
    {
      Total(KeyOf(ms[i].hash), KeyOf(ms[j].hash));
      if KeyOf(ms[i].hash) == KeyOf(ms[j].hash) {
        KeysDiffer(ms[i].hash, ms[j].hash);
      }
    }
  }

  lemma KeyIn(ms: seq<Manifest>, ns: seq<Manifest>, key: string)
    requires key in Keys(ms) && forall m | m in ms :: m in ns
    ensures key in Keys(ns)
  {
    var i :| 0 <= i < |ms| && Keys(ms)[i] == key;
    assert ms[i] in ms;
    var j :| 0 <= j < |ns| && ns[j] == ms[i];
    assert Keys(ns)[j] == key;
  }

  /** In order and of distinct hashes, a listing is determined by its manifests. */
  lemma OneOrder(ms: seq<Manifest>, ns: seq<Manifest>)
    requires InOrder(ms) && InOrder(ns) && DistinctHashes(ms) && DistinctHashes(ns) && forall m :: m in ms <==> m in ns
    ensures ms == ns
  {
    KeysAscend(ms);
    KeysAscend(ns);
    forall key
      ensures key in Keys(ms) <==> key in Keys(ns)
    {
      if key in Keys(ms) {
        KeyIn(ms, ns, key);
      }
      if key in Keys(ns) {
        KeyIn(ns, ms, key);
      }
    }
    SortedUnique(Keys(ms), Keys(ns));
    forall i | 0 <= i < |ms|
      ensures ms[i] == ns[i]
    {
      SamePlace(ms, ns, i);
    }
  }

  lemma SamePlace(ms: seq<Manifest>, ns: seq<Manifest>, i: nat)
    requires Keys(ms) == Keys(ns) && DistinctHashes(ns) && i < |ms| && ms[i] in ns
    ensures |ms| == |ns| && ms[i] == ns[i]
  {
    var j :| 0 <= j < |ns| && ns[j] == ms[i];
    assert |Keys(ms)| == |ms| && |Keys(ns)| == |ns|;
    assert Keys(ns)[i] == Keys(ms)[i];
    KeysDiffer(ns[i].hash, ms[i].hash);
  }
}
