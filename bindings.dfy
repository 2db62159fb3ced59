/** normalizeBindings: renames the numeric keys of a bindings array to the
    slot names `:slot0`, `:slot1`, ... in the order they are met, keeping
    every other key and every value. */
module Bindings {
  import opened Strings
  import opened Render
  import opened Slots

  /** A key of a PHP bindings array: an integer index or a string name. */
  datatype Key = Index(n: int) | Name(name: string)

  /** A PHP array with string keys, as its entries in insertion order. */
  type Assoc = seq<(string, Value)>

  /** No key occurs twice, as in every PHP array. */
  predicate UniqueKeys<K(==), V>(l: seq<(K, V)>) {
    forall i, j :: 0 <= i < j < |l| ==> l[i].0 != l[j].0
  }

  /** $a[k]: the value stored under k, if any. */
  function Lookup(l: Assoc, k: string): Option<Value> {
    if l == [] then None
    else if l[0].0 == k then Some(l[0].1)
    else Lookup(l[1..], k)
  }

  /** The keys of the array. */
  function Keys(l: Assoc): set<string> {
    set i | 0 <= i < |l| :: l[i].0
  }

  lemma KeysCons(x: (string, Value), t: Assoc)
    ensures Keys([x] + t) == {x.0} + Keys(t)
  {
    var r := [x] + t;
    assert r[0] == x;
    assert x.0 in Keys(r);
    forall key | key in Keys(r) ensures key in {x.0} + Keys(t) {
      var i :| 0 <= i < |r| && r[i].0 == key;
      if i > 0 {
        assert t[i - 1] == r[i];
      }
    }
    forall key | key in Keys(t) ensures key in Keys(r) {
      var i :| 0 <= i < |t| && t[i].0 == key;
      assert r[i + 1] == t[i];
    }
  }

  lemma UniqueKeysCons(x: (string, Value), t: Assoc)
    ensures UniqueKeys([x] + t) <==> x.0 !in Keys(t) && UniqueKeys(t)
  {
    var r := [x] + t;
    assert r[0] == x;
    if UniqueKeys(r) {
      forall i, j | 0 <= i < j < |t| ensures t[i].0 != t[j].0 {
        assert t[i] == r[i + 1] && t[j] == r[j + 1];
      }
      forall i | 0 <= i < |t| ensures t[i].0 != x.0 {
        assert r[i + 1] == t[i];
      }
    }
    if x.0 !in Keys(t) && UniqueKeys(t) {
      forall i, j | 0 <= i < j < |r| ensures r[i].0 != r[j].0 {
        assert r[j] == t[j - 1];
        assert t[j - 1].0 in Keys(t);
        if i > 0 {
          assert r[i] == t[i - 1];
        } else {
          assert r[i] == x;
        }
      }
      assert UniqueKeys(r);
    }
  }

  /** $a[k] = v: a new key is added at the end; an existing key keeps its
      place and gets the new value. */
  function Put(l: Assoc, k: string, v: Value): (r: Assoc)
    ensures Lookup(r, k) == Some(v)
    ensures forall k' :: k' != k ==> Lookup(r, k') == Lookup(l, k')
    ensures Lookup(l, k).None? ==> r == l + [(k, v)]
    ensures Lookup(l, k).Some? ==> |r| == |l| && forall j :: 0 <= j < |l| ==> r[j].0 == l[j].0
  {
    if l == [] then [(k, v)]
    else if l[0].0 == k then [(k, v)] + l[1..]
    else
      var tail := Put(l[1..], k, v);
      assert l == [l[0]] + l[1..];
      [l[0]] + tail
  }

  /** Assigning adds k to the keys and never makes a key occur twice. */
  lemma {:induction false} PutKeys(l: Assoc, k: string, v: Value)
    ensures Keys(Put(l, k, v)) == Keys(l) + {k}
    ensures UniqueKeys(l) ==> UniqueKeys(Put(l, k, v))
  {
    if l != [] {
      assert l == [l[0]] + l[1..];
      KeysCons(l[0], l[1..]);
      UniqueKeysCons(l[0], l[1..]);
      if l[0].0 == k {
        KeysCons((k, v), l[1..]);
        UniqueKeysCons((k, v), l[1..]);
      } else {
        var tail := Put(l[1..], k, v);
        PutKeys(l[1..], k, v);
        KeysCons(l[0], tail);
        UniqueKeysCons(l[0], tail);
      }
    }
  }

  /** How many numeric keys the given entries hold: the counter $i after them. */
  function NumericCount(bs: seq<(Key, Value)>): nat {
    if bs == [] then 0
    else NumericCount(bs[..|bs| - 1]) + (if bs[|bs| - 1].0.Index? then 1 else 0)
  }

  /** The key an entry is stored under when the counter stands at i. */
  function RenamedKey(key: Key, i: nat): string {
    match key
    case Index(_) => SlotName(i)
    case Name(s) => s
  }

  /** The entries with their keys renamed, before any of them overwrites
      another. */
  function Renamed(bs: seq<(Key, Value)>): (r: Assoc)
    ensures |r| == |bs|
  {
    if bs == [] then []
    else
      var init := bs[..|bs| - 1];
      Renamed(init) + [(RenamedKey(bs[|bs| - 1].0, NumericCount(init)), bs[|bs| - 1].1)]
  }

  /** The array the loop of normalizeBindings builds from the given entries. */
  function Normalized(bs: seq<(Key, Value)>): Assoc {
    if bs == [] then []
    else
      var init := bs[..|bs| - 1];
      Put(Normalized(init), RenamedKey(bs[|bs| - 1].0, NumericCount(init)), bs[|bs| - 1].1)
  }

  /** The value of the last entry stored under k. */
  function LastValue(l: Assoc, k: string): Option<Value> {
    if l == [] then None
    else if l[|l| - 1].0 == k then Some(l[|l| - 1].1)
    else LastValue(l[..|l| - 1], k)
  }

  /** normalizeBindings: each numeric key becomes the next slot name, each
      other key is kept; an entry whose new key is already present
      overwrites it. */
  method NormalizeBindings(bindings: seq<(Key, Value)>) returns (newBindings: Assoc)
    ensures newBindings == Normalized(bindings)
    ensures UniqueKeys(newBindings)
  {
    var i: nat := 0;
    newBindings := [];
    for j := 0 to |bindings|
      invariant newBindings == Normalized(bindings[..j])
      invariant i == NumericCount(bindings[..j])
    {
      assert bindings[..j + 1][..j] == bindings[..j];
      var (key, value) := bindings[j];
      match key
      case Index(_) =>
        newBindings := Put(newBindings, SlotName(i), value);
        i := i + 1;
      case Name(s) =>
        newBindings := Put(newBindings, s, value);
    }
    assert bindings[..|bindings|] == bindings;
    NormalizedUniqueKeys(bindings);
  }

  /** The normalized array never holds a key twice. */
  lemma {:induction false} NormalizedUniqueKeys(bs: seq<(Key, Value)>)
    ensures UniqueKeys(Normalized(bs))
  {
    if bs != [] {
      var init := bs[..|bs| - 1];
      NormalizedUniqueKeys(init);
      PutKeys(Normalized(init), RenamedKey(bs[|bs| - 1].0, NumericCount(init)), bs[|bs| - 1].1);
    }
  }

  /** Looking up a key in the normalized array gives the value of the last
      entry renamed to it: a later entry overwrites an earlier one. */
  lemma {:induction false} NormalizedLookup(bs: seq<(Key, Value)>, k: string)
    ensures Lookup(Normalized(bs), k) == LastValue(Renamed(bs), k)
  {
    if bs != [] {
      var init := bs[..|bs| - 1];
      NormalizedLookup(init, k);
      var r := Renamed(bs);
      assert r[..|r| - 1] == Renamed(init);
    }
  }

  /** Entry j keeps its value and is renamed with the counter as it stands
      when the entry is met: numeric keys become `:slot` followed by the
      number of numeric keys before them. */
  lemma {:induction false} RenamedAt(bs: seq<(Key, Value)>, j: nat)
    requires j < |bs|
    ensures Renamed(bs)[j] == (RenamedKey(bs[j].0, NumericCount(bs[..j])), bs[j].1)
  {
    var init := bs[..|bs| - 1];
    if j < |bs| - 1 {
      RenamedAt(init, j);
      assert init[..j] == bs[..j];
    }
  }

  /** The counter grows by one with each numeric key and stays put on the
      other keys. */
  lemma {:induction false} NumericCountGrows(bs: seq<(Key, Value)>, i: nat, j: nat)
    requires i < j <= |bs|
    ensures NumericCount(bs[..i]) <= NumericCount(bs[..j])
    ensures bs[i].0.Index? ==> NumericCount(bs[..i]) < NumericCount(bs[..j])
    decreases j
  {
    assert bs[..j][..j - 1] == bs[..j - 1];
    if i < j - 1 {
      NumericCountGrows(bs, i, j - 1);
    } else {
      assert bs[..j][j - 1] == bs[i];
    }
  }

  /** Two different numeric entries get two different slot names. */
  lemma NumericKeysDistinct(bs: seq<(Key, Value)>, i: nat, j: nat)
    requires i < j < |bs| && bs[i].0.Index? && bs[j].0.Index?
    ensures Renamed(bs)[i].0 != Renamed(bs)[j].0
  {
    RenamedAt(bs, i);
    RenamedAt(bs, j);
    NumericCountGrows(bs, i, j);
    var a, b := NumericCount(bs[..i]), NumericCount(bs[..j]);
    DecimalStringInjective(a, b);
  }

  /** A named key that is no slot name keeps its value. */
  lemma {:induction false} NamedKeyKept(bs: seq<(Key, Value)>, j: nat, s: string)
    requires UniqueKeys(bs)
    requires j < |bs| && bs[j].0 == Name(s)
    requires forall k: nat :: s != SlotName(k)
    ensures Lookup(Normalized(bs), s) == Some(bs[j].1)
  {
    NormalizedLookup(bs, s);
    LastIsNamed(bs, j, s);
  }

  lemma {:induction false} LastIsNamed(bs: seq<(Key, Value)>, j: nat, s: string)
    requires UniqueKeys(bs)
    requires j < |bs| && bs[j].0 == Name(s)
    requires forall k: nat :: s != SlotName(k)
    ensures LastValue(Renamed(bs), s) == Some(bs[j].1)
  {
    var init := bs[..|bs| - 1];
    var r := Renamed(bs);
    assert r[..|r| - 1] == Renamed(init);
    RenamedAt(bs, |bs| - 1);
    if j < |bs| - 1 {
      var last := bs[|bs| - 1].0;
      assert last != Name(s);
      if last.Index? {
        assert s != SlotName(NumericCount(init));
      }
      assert UniqueKeys(init) by {
        forall a, b | 0 <= a < b < |init| ensures init[a].0 != init[b].0 {
          assert init[a] == bs[a] && init[b] == bs[b];
        }
      }
      LastIsNamed(init, j, s);
    }
  }

  /** The collision: a numeric key renamed to `:slot0` overwrites an entry
      already named `:slot0`, in its place; in the other order the named
      entry wins. */
  lemma NumericKeyOverwritesNamedSlot(a: Value, b: Value)
    ensures Normalized([(Name(":slot0"), a), (Index(0), b)]) == [(":slot0", b)]
    ensures Normalized([(Index(0), b), (Name(":slot0"), a)]) == [(":slot0", a)]
  {
    assert DecimalString(0) == "0";
    assert SlotName(0) == ":slot0";
    var bs1 := [(Name(":slot0"), a), (Index(0), b)];
    assert bs1[..1] == [(Name(":slot0"), a)] && bs1[..1][..0] == [];
    assert NumericCount(bs1[..1]) == 0;
    assert Normalized(bs1[..1]) == [(":slot0", a)];
    assert Normalized(bs1) == Put([(":slot0", a)], SlotName(0), b);
    var bs2 := [(Index(0), b), (Name(":slot0"), a)];
    assert bs2[..1] == [(Index(0), b)] && bs2[..1][..0] == [];
    assert Normalized(bs2[..1]) == [(":slot0", b)];
  }

  /** A list of values bound by position: keys 0, 1, 2, ... */
  function Positional(vs: seq<Value>): (bs: seq<(Key, Value)>)
    ensures |bs| == |vs|
    ensures forall i :: 0 <= i < |vs| ==> bs[i] == (Index(i), vs[i])
  {
    seq(|vs|, i requires 0 <= i < |vs| => (Index(i), vs[i]))
  }

  /** The same values under the slot names `:slot0`, `:slot1`, ... */
  function SlotBindings(vs: seq<Value>): (l: Assoc)
    ensures |l| == |vs|
    ensures forall i :: 0 <= i < |vs| ==> l[i] == (SlotName(i), vs[i])
  {
    seq(|vs|, i requires 0 <= i < |vs| => (SlotName(i), vs[i]))
  }

  lemma {:induction false} NumericCountPositional(vs: seq<Value>)
    ensures NumericCount(Positional(vs)) == |vs|
  {
    if vs != [] {
      var init := vs[..|vs| - 1];
      assert Positional(vs)[..|vs| - 1] == Positional(init);
      NumericCountPositional(init);
    }
  }

  /** Different counters give different slot names. */
  lemma SlotNamesDistinct(i: nat, n: nat)
    requires i != n
    ensures SlotName(i) != SlotName(n)
  {
    DecimalStringInjective(i, n);
    assert SlotName(i)[5..] == DecimalString(i);
    assert SlotName(n)[5..] == DecimalString(n);
  }

  lemma {:induction false} LookupAbsent(l: Assoc, k: string)
    requires forall i :: 0 <= i < |l| ==> l[i].0 != k
    ensures Lookup(l, k) == None
  {
    if l != [] {
      LookupAbsent(l[1..], k);
    }
  }

  /** Bindings given by position are renamed to the slots in order: the
      value at position i ends up under `:slot` followed by i, which is the
      name normalizeSlots gives the i-th `?` of the query. */
  lemma SlotBindingsSnoc(vs: seq<Value>)
    requires vs != []
    ensures var n := |vs| - 1;
            SlotBindings(vs[..n]) + [(SlotName(n), vs[n])] == SlotBindings(vs)
  {
    var n := |vs| - 1;
    var l, r := SlotBindings(vs[..n]) + [(SlotName(n), vs[n])], SlotBindings(vs);
    assert |l| == |r|;
    forall i | 0 <= i < |r| ensures l[i] == r[i] {
      if i < n {
        assert l[i] == SlotBindings(vs[..n])[i];
      }
    }
  }

  lemma {:induction false} PositionalBindingsAlign(vs: seq<Value>)
    ensures Normalized(Positional(vs)) == SlotBindings(vs)
  {
    if vs != [] {
      var n := |vs| - 1;
      var init := vs[..n];
      var bs := Positional(vs);
      assert bs[..n] == Positional(init);
      assert bs[n] == (Index(n), vs[n]);
      PositionalBindingsAlign(init);
      NumericCountPositional(init);
      var before := SlotBindings(init);
      assert Normalized(bs) == Put(before, SlotName(n), vs[n]);
      forall i | 0 <= i < n ensures before[i].0 != SlotName(n) {
        SlotNamesDistinct(i, n);
      }
      LookupAbsent(before, SlotName(n));
      SlotBindingsSnoc(vs);
    }
  }
}
