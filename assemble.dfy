/** writeQuery: fills the rendered values of the bindings into the
    normalized query, longest key first so that `:slot1` cannot eat the
    front of `:slot10`. */
module Assemble {
  import opened Strings
  import opened Render
  import opened Bindings

  /** Keys never get longer from one entry to the next. */
  predicate LongestKeyFirst(l: Assoc) {
    forall i, j :: 0 <= i < j < |l| ==> |l[i].0| >= |l[j].0|
  }

  /** An entry whose key is at least as long as the head's can go in front. */
  lemma ConsLongestKeyFirst(e: (string, Value), l: Assoc)
    requires LongestKeyFirst(l)
    requires l != [] ==> |e.0| >= |l[0].0|
    ensures LongestKeyFirst([e] + l)
  {
    var r := [e] + l;
    forall i, j | 0 <= i < j < |r| ensures |r[i].0| >= |r[j].0| {
      assert r[j] == l[j - 1];
      if i > 0 {
        assert r[i] == l[i - 1];
      }
    }
  }

  /** How many leading entries have a key strictly longer than e's: the
      place where e goes. */
  function LongerCount(e: (string, Value), l: Assoc): (p: nat)
    ensures p <= |l|
    ensures forall i :: 0 <= i < p ==> |l[i].0| > |e.0|
    ensures p < |l| ==> |l[p].0| <= |e.0|
  {
    if l == [] || |l[0].0| <= |e.0| then 0 else 1 + LongerCount(e, l[1..])
  }

  /** Puts e in front of the first entry whose key is no longer than its
      own: after every strictly longer key, before every other key. */
  function InsertByKeyLength(e: (string, Value), l: Assoc): (r: Assoc)
    requires LongestKeyFirst(l)
    ensures LongestKeyFirst(r)
    ensures multiset(r) == multiset(l) + multiset{e}
    ensures |r| == |l| + 1
    ensures r[0] == if l == [] || |e.0| >= |l[0].0| then e else l[0]
  {
    if l == [] || |e.0| >= |l[0].0| then
      ConsLongestKeyFirst(e, l);
      [e] + l
    else
      TailLongestKeyFirst(l);
      var tail := InsertByKeyLength(e, l[1..]);
      assert l == [l[0]] + l[1..];
      assert l[1..] != [] ==> |l[0].0| >= |l[1].0|;
      ConsLongestKeyFirst(l[0], tail);
      [l[0]] + tail
  }

  lemma TailLongestKeyFirst(l: Assoc)
    requires LongestKeyFirst(l) && l != []
    ensures LongestKeyFirst(l[1..])
  {
    forall i, j | 0 <= i < j < |l[1..]| ensures |l[1..][i].0| >= |l[1..][j].0| {
      assert l[1..][i] == l[i + 1] && l[1..][j] == l[j + 1];
    }
  }

  /** Inserting after the head of l is inserting into its tail. */
  lemma SplitAfterHead<T>(l: seq<T>, p: nat, e: T)
    requires 0 < p <= |l|
    ensures [l[0]] + (l[1..][..p - 1] + [e] + l[1..][p - 1..]) == l[..p] + [e] + l[p..]
  {
    assert l[..p] == [l[0]] + l[1..][..p - 1];
    assert l[p..] == l[1..][p - 1..];
  }

  /** Where InsertByKeyLength puts e: after the strictly longer keys at
      the head of l, in front of all the others. */
  lemma {:induction false} InsertPlacement(e: (string, Value), l: Assoc)
    requires LongestKeyFirst(l)
    ensures var p := LongerCount(e, l);
            InsertByKeyLength(e, l) == l[..p] + [e] + l[p..]
  {
    var p := LongerCount(e, l);
    if l == [] || |e.0| >= |l[0].0| {
      assert l[..0] == [] && l[0..] == l;
    } else {
      TailLongestKeyFirst(l);
      InsertPlacement(e, l[1..]);
      SplitAfterHead(l, p, e);
    }
  }

  /** No key after the place where e goes is longer than e's. */
  lemma AfterPlaceNoLonger(e: (string, Value), l: Assoc)
    requires LongestKeyFirst(l)
    ensures forall i :: LongerCount(e, l) <= i < |l| ==> |l[i].0| <= |e.0|
  {
    var p := LongerCount(e, l);
    forall i | p <= i < |l| ensures |l[i].0| <= |e.0| {
      assert |l[i].0| <= |l[p].0|;
    }
  }

  /** uksort($newBindings, by descending key length): the same entries,
      longest key first. */
  function SortByKeyLength(l: Assoc): (r: Assoc)
    ensures LongestKeyFirst(r)
    ensures multiset(r) == multiset(l)
    ensures |r| == |l|
  {
    if l == [] then []
    else
      assert l == [l[0]] + l[1..];
      InsertByKeyLength(l[0], SortByKeyLength(l[1..]))
  }

  /** The entries whose key has length n, in order. */
  function OfLength(l: Assoc, n: nat): Assoc {
    if l == [] then [] else (if |l[0].0| == n then [l[0]] else []) + OfLength(l[1..], n)
  }

  lemma {:induction false} OfLengthConcat(a: Assoc, b: Assoc, n: nat)
    ensures OfLength(a + b, n) == OfLength(a, n) + OfLength(b, n)
  {
    if a != [] {
      assert (a + b)[0] == a[0] && (a + b)[1..] == a[1..] + b;
      OfLengthConcat(a[1..], b, n);
    } else {
      assert a + b == b;
    }
  }

  lemma {:induction false} OfLengthNone(l: Assoc, n: nat)
    requires forall i :: 0 <= i < |l| ==> |l[i].0| != n
    ensures OfLength(l, n) == []
  {
    if l != [] {
      OfLengthNone(l[1..], n);
    }
  }

  /** Putting e behind entries with longer keys only: among the entries
      of any one key length, e comes first. */
  lemma OfLengthInsert(t: Assoc, p: nat, e: (string, Value), n: nat)
    requires p <= |t|
    requires forall i :: 0 <= i < p ==> |t[i].0| > |e.0|
    ensures OfLength(t[..p] + [e] + t[p..], n) == OfLength([e], n) + OfLength(t, n)
  {
    OfLengthConcat(t[..p] + [e], t[p..], n);
    OfLengthConcat(t[..p], [e], n);
    OfLengthConcat(t[..p], t[p..], n);
    assert t[..p] + t[p..] == t;
    if |e.0| == n {
      OfLengthNone(t[..p], n);
    }
  }

  /** Inserting e into a sorted t whose entries of length n are those of
      rest keeps them behind e, as in [e] + rest. */
  lemma OfLengthInsertByKeyLength(e: (string, Value), t: Assoc, rest: Assoc, n: nat)
    requires LongestKeyFirst(t)
    requires OfLength(t, n) == OfLength(rest, n)
    ensures OfLength(InsertByKeyLength(e, t), n) == OfLength([e] + rest, n)
  {
    InsertPlacement(e, t);
    OfLengthInsert(t, LongerCount(e, t), e, n);
    OfLengthConcat([e], rest, n);
  }

  /** The sort is stable, as uksort is from PHP 8.0 on: for every key
      length, the entries with a key of that length keep their input
      order. */
  lemma {:induction false} SortByKeyLengthStable(l: Assoc, n: nat)
    ensures OfLength(SortByKeyLength(l), n) == OfLength(l, n)
  {
    if l != [] {
      SortByKeyLengthStable(l[1..], n);
      OfLengthInsertByKeyLength(l[0], SortByKeyLength(l[1..]), l[1..], n);
      assert [l[0]] + l[1..] == l;
    }
  }

  /** One step of the loop of writeQuery: a key that starts with `:` is
      replaced everywhere by the rendered value; any other key is skipped. */
  function Step(s: string, b: (string, Value), settings: Settings): string {
    if ":" <= b.0 then ReplaceAll(s, b.0, FillInValue(b.1, settings)) else s
  }

  /** The query after substituting the entries in the given order. */
  function Substitute(s: string, l: Assoc, settings: Settings): string
    decreases |l|
  {
    if l == [] then s else Substitute(Step(s, l[0], settings), l[1..], settings)
  }

  /** The string writeQuery returns. */
  function Assembled(newSql: string, newBindings: Assoc, settings: Settings): string {
    Substitute(newSql, SortByKeyLength(newBindings), settings)
  }

  /** writeQuery: sort the bindings longest key first, then replace each
      `:`-key by its rendered value. */
  method WriteQuery(newSql: string, newBindings: Assoc, settings: Settings) returns (newStr: string)
    ensures newStr == Assembled(newSql, newBindings, settings)
    ensures newBindings == [] ==> newStr == newSql
  {
    var sorted := SortByKeyLength(newBindings);
    newStr := newSql;
    for i := 0 to |sorted|
      invariant Substitute(newStr, sorted[i..], settings) == Substitute(newSql, sorted, settings)
    {
      var (slot, value) := sorted[i];
      assert sorted[i..][1..] == sorted[i + 1..];
      assert Substitute(newStr, sorted[i..], settings)
          == Substitute(Step(newStr, sorted[i], settings), sorted[i + 1..], settings);
      if ":" <= slot {
        newStr := ReplaceAll(newStr, slot, FillInValue(value, settings));
      }
    }
    assert sorted[|sorted|..] == [];
  }

  /** The entries whose key starts with `:`, in order. */
  function SlotEntries(l: Assoc): (r: Assoc)
    ensures |r| <= |l|
    ensures forall i :: 0 <= i < |r| ==> ":" <= r[i].0
  {
    if l == [] then []
    else (if ":" <= l[0].0 then [l[0]] else []) + SlotEntries(l[1..])
  }

  /** Keys that do not start with `:` never change the query: substituting
      all entries is substituting only the `:`-keyed ones. */
  lemma {:induction false} SubstituteSkipsOtherKeys(s: string, l: Assoc, settings: Settings)
    ensures Substitute(s, l, settings) == Substitute(s, SlotEntries(l), settings)
    decreases |l|
  {
    if l != [] {
      SubstituteSkipsOtherKeys(Step(s, l[0], settings), l[1..], settings);
      if ":" <= l[0].0 {
        assert ([l[0]] + SlotEntries(l[1..]))[1..] == SlotEntries(l[1..]);
      } else {
        assert SlotEntries(l) == SlotEntries(l[1..]);
      }
    }
  }

  /** Bindings none of whose keys starts with `:` leave the query as it is. */
  lemma NoSlotKeysNoChange(newSql: string, newBindings: Assoc, settings: Settings)
    requires forall i :: 0 <= i < |newBindings| ==> !(":" <= newBindings[i].0)
    ensures Assembled(newSql, newBindings, settings) == newSql
  {
    var sorted := SortByKeyLength(newBindings);
    forall i | 0 <= i < |sorted| ensures !(":" <= sorted[i].0) {
      assert sorted[i] in multiset(newBindings);
      var j :| 0 <= j < |newBindings| && newBindings[j] == sorted[i];
    }
    SubstituteSkipsOtherKeys(newSql, sorted, settings);
    NoSlotEntries(sorted);
  }

  lemma {:induction false} NoSlotEntries(l: Assoc)
    requires forall i :: 0 <= i < |l| ==> !(":" <= l[i].0)
    ensures SlotEntries(l) == []
  {
    if l != [] {
      assert !(":" <= l[0].0);
      NoSlotEntries(l[1..]);
    }
  }

  /** Keys that occur nowhere in the query change nothing: a query in which
      no bound key occurs comes back unchanged. */
  lemma {:induction false} SubstituteAbsentKeys(s: string, l: Assoc, settings: Settings)
    requires forall i :: 0 <= i < |l| ==> !Contains(s, l[i].0)
    ensures Substitute(s, l, settings) == s
    decreases |l|
  {
    if l != [] {
      if ":" <= l[0].0 {
        ReplaceAllAbsent(s, l[0].0, FillInValue(l[0].1, settings));
      }
      SubstituteAbsentKeys(s, l[1..], settings);
    }
  }

  /** A key that is a proper prefix of a longer key eats the front of it:
      the longer key is no longer found afterwards. */
  lemma ShortKeyEatsLongKey(k: string, x: string, v: string)
    requires k != [] && x != [] && |x| < |k|
    ensures ReplaceAll(k + x, k, v) == v + x
  {
    var s := k + x;
    assert k <= s && s[|k|..] == x;
  }

  /** Settings under which no text except `NULL` is integer-like, so every
      other text is rendered quoted. */
  function QuotingSettings(): Settings {
    Settings(40, false, (t: string) => false)
  }

  /** A step whose key starts with `:` leaves a query without `:` as it is. */
  lemma StepColonFree(s: string, b: (string, Value), settings: Settings)
    requires ':' !in s
    ensures Step(s, b, settings) == s
  {
    if ":" <= b.0 {
      ReplaceAllPlainPrefix(s, [], b.0, FillInValue(b.1, settings));
      assert s + [] == s;
    }
  }

  lemma {:induction false} SubstituteColonFree(s: string, l: Assoc, settings: Settings)
    requires ':' !in s
    ensures Substitute(s, l, settings) == s
    decreases |l|
  {
    if l != [] {
      StepColonFree(s, l[0], settings);
      SubstituteColonFree(s, l[1..], settings);
    }
  }

  /** A query without any `:` (one that had no `?` and names no
      parameter) comes back unchanged, whatever the bindings. */
  lemma ColonFreeQueryUnchanged(newSql: string, newBindings: Assoc, settings: Settings)
    requires ':' !in newSql
    ensures Assembled(newSql, newBindings, settings) == newSql
  {
    SubstituteColonFree(newSql, SortByKeyLength(newBindings), settings);
  }

  /** The length order gives no protection to a slot that has no binding:
      a bound key that is a proper prefix of it rewrites its front. */
  lemma UnboundLongKeyEaten(k: string, x: string, v: Value, settings: Settings)
    requires ":" <= k && x != [] && |x| < |k|
    ensures Assembled(k + x, [(k, v)], settings) == FillInValue(v, settings) + x
  {
    var r := FillInValue(v, settings);
    var l := [(k, v)];
    assert SortByKeyLength(l) == l;
    assert l[0] == (k, v) && l[1..] == [];
    ShortKeyEatsLongKey(k, x, r);
    assert Step(k + x, l[0], settings) == r + x;
    assert Substitute(k + x, l, settings) == Substitute(r + x, [], settings);
  }

  /** Eleven `?` with two positional values: the eleventh slot, `:slot10`,
      is unbound, and the binding of `:slot1` fills its front, leaving a
      stray `0`. */
  lemma UnboundSlotTenTakesSlotOne()
    ensures Assembled(":slot10", [(":slot1", Bare(Text("a")))], QuotingSettings()) == "'a'0"
  {
    CollidingValues();
    assert ":slot10" == ":slot1" + "0";
    UnboundLongKeyEaten(":slot1", "0", Bare(Text("a")), QuotingSettings());
  }

  /** Keys of equal length are substituted in the order the bindings list
      them, as the stable uksort of PHP 8 keeps them; when the value of the
      first contains the second key, the order shows in the result. */
  lemma EqualLengthKeysKeepInputOrder()
    ensures Assembled(":a", [(":a", Bare(Text(":b"))), (":b", Bare(Text("x")))], QuotingSettings()) == "''x''"
    ensures Assembled(":a", [(":b", Bare(Text("x"))), (":a", Bare(Text(":b")))], QuotingSettings()) == "':b'"
  {
    var a, b := (":a", Bare(Text(":b"))), (":b", Bare(Text("x")));
    SortEqualLength(a, b);
    SortEqualLength(b, a);
    SubstituteAThenB();
    SubstituteBThenA();
  }

  /** Two entries with keys of equal length stay in the order given. */
  lemma SortEqualLength(x: (string, Value), y: (string, Value))
    requires |x.0| == |y.0|
    ensures SortByKeyLength([x, y]) == [x, y]
  {
    var l := [x, y];
    assert l[0] == x && l[1..] == [y];
    assert [y][0] == y && [y][1..] == [];
    assert SortByKeyLength([y]) == InsertByKeyLength(y, []) == [y];
  }

  lemma ValuesOfEqualLengthKeys()
    ensures FillInValue(Bare(Text(":b")), QuotingSettings()) == "':b'"
    ensures FillInValue(Bare(Text("x")), QuotingSettings()) == "'x'"
  {
  }

  lemma SubstituteAThenB()
    ensures Substitute(":a", [(":a", Bare(Text(":b"))), (":b", Bare(Text("x")))], QuotingSettings()) == "''x''"
  {
    var a, b := (":a", Bare(Text(":b"))), (":b", Bare(Text("x")));
    ValuesOfEqualLengthKeys();
    var first := ReplaceAll(":a", ":a", "':b'");
    assert first == "':b'" + ReplaceAll("", ":a", "':b'");
    assert first == "':b'";
    var second := ReplaceAll("':b'", ":b", "'x'");
    assert "':b'"[1..] == ":b'";
    assert ReplaceAll(":b'", ":b", "'x'") == "'x'" + ReplaceAll("'", ":b", "'x'");
    assert second == "'" + ReplaceAll(":b'", ":b", "'x'");
    assert second == "''x''";
    assert [a, b][1..] == [b];
    assert Substitute(":a", [a, b], QuotingSettings()) == Substitute(first, [b], QuotingSettings());
    assert Substitute(first, [b], QuotingSettings()) == Substitute(second, [], QuotingSettings());
  }

  lemma SubstituteBThenA()
    ensures Substitute(":a", [(":b", Bare(Text("x"))), (":a", Bare(Text(":b")))], QuotingSettings()) == "':b'"
  {
    var a, b := (":a", Bare(Text(":b"))), (":b", Bare(Text("x")));
    ValuesOfEqualLengthKeys();
    var first := ReplaceAll(":a", ":b", "'x'");
    assert ":a"[1] != ":b"[1] && ":a"[1..] == "a";
    assert first == [':'] + ReplaceAll("a", ":b", "'x'");
    assert first == ":a";
    var second := ReplaceAll(":a", ":a", "':b'");
    assert second == "':b'" + ReplaceAll("", ":a", "':b'");
    assert [b, a][1..] == [a];
    assert Substitute(":a", [b, a], QuotingSettings()) == Substitute(first, [a], QuotingSettings());
    assert Substitute(first, [a], QuotingSettings()) == Substitute(second, [], QuotingSettings());
  }

  /** Two bindings whose keys collide: `:slot1` is a prefix of `:slot10`. */
  function CollidingBindings(): Assoc {
    [(":slot1", Bare(Text("a"))), (":slot10", Bare(Text("b")))]
  }

  lemma CollidingValues()
    ensures FillInValue(Bare(Text("a")), QuotingSettings()) == "'a'"
    ensures FillInValue(Bare(Text("b")), QuotingSettings()) == "'b'"
  {
  }

  /** The collision the length order prevents: the sorted substitution
      fills `:slot10` with its own value b. */
  lemma SlotOneDoesNotEatSlotTen()
    ensures Assembled(":slot10", CollidingBindings(), QuotingSettings()) == "'b'"
  {
    var one, ten := CollidingBindings()[0], CollidingBindings()[1];
    CollidingValues();
    assert SortByKeyLength([one, ten]) == [ten, one];
    assert [ten, one][1..] == [one];
    assert ReplaceAll(":slot10", ":slot10", "'b'") == "'b'" + ReplaceAll("", ":slot10", "'b'");
    assert ReplaceAll("'b'", ":slot1", "'a'") == "'b'";
  }

  /** Substituting in the given order instead, `:slot1` first, rewrites the
      front of `:slot10` and leaves a stray `0`. */
  lemma GivenOrderEatsSlotTen()
    ensures Substitute(":slot10", CollidingBindings(), QuotingSettings()) == "'a'0"
  {
    var one, ten := CollidingBindings()[0], CollidingBindings()[1];
    CollidingValues();
    assert CollidingBindings()[1..] == [ten];
    assert ":slot10" == ":slot1" + "0";
    ShortKeyEatsLongKey(":slot1", "0", "'a'");
    assert ReplaceAll("'a'0", ":slot10", "'b'") == "'a'0";
  }
}
