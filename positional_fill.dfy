/** What log() makes of a query with positional `?`s and a list of values
    bound by position: normalizeSlots turns the k-th `?` into the marked
    slot name `:slotk`, normalizeBindings renames position k to `:slotk`,
    and writeQuery replaces every such name, longest first, by the
    rendered value. The lemmas here follow one slot name through the
    whole query and show that each `?` ends up holding its own value. */
module PositionalFill {
  import opened Strings
  import opened Render
  import opened Slots
  import opened Bindings
  import opened Assemble
  import opened Logger

  /** No rendered value holds a `:`, so no value can be mistaken for a
      slot name by a later replacement. */
  predicate ColonFreeValues(vs: seq<Value>, settings: Settings) {
    forall k :: 0 <= k < |vs| ==> ':' !in FillInValue(vs[k], settings)
  }

  /** The marker of slot k while the slot names in `pending` are still
      waiting for their value: a bound slot whose name is no longer
      pending holds its rendered value inside the markup; every other
      slot still holds its name. */
  function FilledBut(cliSurface: bool, vs: seq<Value>, settings: Settings, pending: set<string>): nat -> string {
    (k: nat) =>
      if k < |vs| && SlotName(k) !in pending then Wrap(cliSurface, FillInValue(vs[k], settings))
      else Marker(cliSurface, k)
  }

  lemma SlotNameShape(k: nat)
    ensures SlotName(k)[0] == ':' && SlotName(k)[1] == 's'
    ensures ':' !in SlotName(k)[1..]
  {
    var name, d := SlotName(k), DecimalString(k);
    assert name == ":slot" + d;
    assert name[1..] == "slot" + d;
    assert ':' !in d by {
      forall i | 0 <= i < |d| ensures d[i] != ':' {
        assert IsDigit(d[i]);
      }
    }
  }

  /** Text whose only `:` is followed by a character other than the
      second one of the search string is copied through. */
  lemma ColonMismatchPasses(head: string, tail: string, rest: string, key: string, r: string)
    requires |key| > 1 && key[0] == ':'
    requires ':' !in head && ':' !in tail && tail != [] && tail[0] != key[1]
    ensures ReplaceAll(head + ":" + tail + rest, key, r) == head + ":" + tail + ReplaceAll(rest, key, r)
  {
    var s := ":" + tail + rest;
    assert !(key <= s) by {
      assert s[1] == tail[0];
    }
    calc {
      ReplaceAll(head + ":" + tail + rest, key, r);
      { assert head + ":" + tail + rest == head + s; }
      ReplaceAll(head + s, key, r);
      { ReplaceAllPlainPrefix(head, s, key, r); }
      head + ReplaceAll(s, key, r);
      { ReplaceAllNoMatchHere(s, key, r); assert s[1..] == tail + rest; }
      head + (":" + ReplaceAll(tail + rest, key, r));
      { ReplaceAllPlainPrefix(tail, rest, key, r); }
      head + (":" + (tail + ReplaceAll(rest, key, r)));
      head + ":" + tail + ReplaceAll(rest, key, r);
    }
  }

  /** The HTML opening markup is copied through by a search for a slot
      name: its one `:` is followed by `g`, not by `s`. */
  lemma HtmlOpenPasses(rest: string, j: nat, r: string)
    ensures ReplaceAll(Open(false) + rest, SlotName(j), r) == Open(false) + ReplaceAll(rest, SlotName(j), r)
  {
    SlotNameShape(j);
    var head, tail := "<b style=\"color", "green\">";
    assert Open(false) == head + ":" + tail;
    assert ':' !in head && ':' !in tail;
    ColonMismatchPasses(head, tail, rest, SlotName(j), r);
    assert Open(false) + rest == head + ":" + tail + rest;
  }

  /** The opening markup is copied through by a search for a slot name. */
  lemma OpenPasses(cliSurface: bool, rest: string, j: nat, r: string)
    ensures ReplaceAll(Open(cliSurface) + rest, SlotName(j), r)
            == Open(cliSurface) + ReplaceAll(rest, SlotName(j), r)
  {
    if cliSurface {
      SlotNameShape(j);
      assert ':' !in Open(cliSurface);
      ReplaceAllPlainPrefix(Open(cliSurface), rest, SlotName(j), r);
    } else {
      HtmlOpenPasses(rest, j, r);
    }
  }

  /** The closing markup holds no `:` and is copied through. */
  lemma ClosePasses(cliSurface: bool, rest: string, j: nat, r: string)
    ensures ReplaceAll(Close(cliSurface) + rest, SlotName(j), r)
            == Close(cliSurface) + ReplaceAll(rest, SlotName(j), r)
  {
    SlotNameShape(j);
    assert ':' !in Close(cliSurface);
    ReplaceAllPlainPrefix(Close(cliSurface), rest, SlotName(j), r);
  }

  /** A slot in markup is rewritten exactly as its body is. */
  lemma WrapPasses(cliSurface: bool, body: string, body': string, rest: string, j: nat, r: string)
    requires ReplaceAll(body + (Close(cliSurface) + rest), SlotName(j), r)
             == body' + ReplaceAll(Close(cliSurface) + rest, SlotName(j), r)
    ensures ReplaceAll(Wrap(cliSurface, body) + rest, SlotName(j), r)
            == Wrap(cliSurface, body') + ReplaceAll(rest, SlotName(j), r)
  {
    var open, close, key := Open(cliSurface), Close(cliSurface), SlotName(j);
    calc {
      ReplaceAll(Wrap(cliSurface, body) + rest, key, r);
      { assert Wrap(cliSurface, body) + rest == open + (body + (close + rest)); }
      ReplaceAll(open + (body + (close + rest)), key, r);
      { OpenPasses(cliSurface, body + (close + rest), j, r); }
      open + ReplaceAll(body + (close + rest), key, r);
      open + (body' + ReplaceAll(close + rest, key, r));
      { ClosePasses(cliSurface, rest, j, r); }
      open + (body' + (close + ReplaceAll(rest, key, r)));
      Wrap(cliSurface, body') + ReplaceAll(rest, key, r);
    }
  }

  /** Another slot name, no longer than the one searched for and followed
      by a character that is not a digit, does not start a match: either
      the two names differ at some place, or the longer name has a digit
      where the shorter one has ended. */
  lemma OtherSlotNoMatch(k: nat, j: nat, rest: string)
    requires k != j && |SlotName(k)| <= |SlotName(j)|
    requires rest != [] && !IsDigit(rest[0])
    ensures !(SlotName(j) <= SlotName(k) + rest)
  {
    var a, b := SlotName(k), SlotName(j);
    var s := a + rest;
    SlotNamesDistinct(k, j);
    if |a| == |b| {
      assert exists i :: 0 <= i < |a| && a[i] != b[i];
      var i :| 0 <= i < |a| && a[i] != b[i];
      assert s[i] == a[i];
    } else {
      var i := |a|;
      assert s[i] == rest[0];
      assert b[5..][i - 5] == b[i];
    }
  }

  /** The slot name searched for is replaced by the value. */
  lemma MatchedSlotReplaced(j: nat, rest: string, r: string)
    ensures ReplaceAll(SlotName(j) + rest, SlotName(j), r) == r + ReplaceAll(rest, SlotName(j), r)
  {
    var key := SlotName(j);
    assert key <= key + rest;
    assert (key + rest)[|key|..] == rest;
  }

  /** Any other slot name no longer than the one searched for is copied
      through. */
  lemma OtherSlotPasses(k: nat, j: nat, rest: string, r: string)
    requires k != j && |SlotName(k)| <= |SlotName(j)|
    requires rest != [] && !IsDigit(rest[0])
    ensures ReplaceAll(SlotName(k) + rest, SlotName(j), r) == SlotName(k) + ReplaceAll(rest, SlotName(j), r)
  {
    var a, key := SlotName(k), SlotName(j);
    SlotNameShape(k);
    SlotNameShape(j);
    calc {
      ReplaceAll(a + rest, key, r);
      { OtherSlotNoMatch(k, j, rest); ReplaceAllNoMatchHere(a + rest, key, r); }
      [a[0]] + ReplaceAll((a + rest)[1..], key, r);
      { assert (a + rest)[1..] == a[1..] + rest; }
      [a[0]] + ReplaceAll(a[1..] + rest, key, r);
      { ReplaceAllPlainPrefix(a[1..], rest, key, r); }
      [a[0]] + (a[1..] + ReplaceAll(rest, key, r));
      { assert [a[0]] + a[1..] == a; }
      a + ReplaceAll(rest, key, r);
    }
  }

  /** A filled slot, whose value holds no `:`, is copied through. */
  lemma FilledSlotPasses(cliSurface: bool, body: string, rest: string, j: nat, r: string)
    requires ':' !in body
    ensures ReplaceAll(Wrap(cliSurface, body) + rest, SlotName(j), r)
            == Wrap(cliSurface, body) + ReplaceAll(rest, SlotName(j), r)
  {
    SlotNameShape(j);
    ReplaceAllPlainPrefix(body, Close(cliSurface) + rest, SlotName(j), r);
    WrapPasses(cliSurface, body, body, rest, j, r);
  }

  /** The marker of slot j is filled with the value. */
  lemma MatchedMarkerReplaced(cliSurface: bool, rest: string, j: nat, r: string)
    ensures ReplaceAll(Marker(cliSurface, j) + rest, SlotName(j), r)
            == Wrap(cliSurface, r) + ReplaceAll(rest, SlotName(j), r)
  {
    MatchedSlotReplaced(j, Close(cliSurface) + rest, r);
    WrapPasses(cliSurface, SlotName(j), r, rest, j, r);
  }

  /** The marker of another slot whose name is no longer is copied
      through. */
  lemma OtherMarkerPasses(cliSurface: bool, k: nat, rest: string, j: nat, r: string)
    requires k != j && |SlotName(k)| <= |SlotName(j)|
    ensures ReplaceAll(Marker(cliSurface, k) + rest, SlotName(j), r)
            == Marker(cliSurface, k) + ReplaceAll(rest, SlotName(j), r)
  {
    var close := Close(cliSurface) + rest;
    assert close[0] == Close(cliSurface)[0];
    OtherSlotPasses(k, j, close, r);
    WrapPasses(cliSurface, SlotName(k), SlotName(k), rest, j, r);
  }

  /** Replacing the name of slot j, a longest pending name, turns the
      marker of one slot from the state where j is pending into the state
      where it is filled. */
  lemma MarkerStep(cliSurface: bool, vs: seq<Value>, settings: Settings, pending: set<string>,
                   j: nat, k: nat, rest: string)
    requires j < |vs| && k < |vs|
    requires forall key :: key in pending ==> |key| <= |SlotName(j)|
    requires ColonFreeValues(vs, settings)
    ensures var r := FillInValue(vs[j], settings);
            ReplaceAll(FilledBut(cliSurface, vs, settings, pending)(k) + rest, SlotName(j), r)
            == FilledBut(cliSurface, vs, settings, pending - {SlotName(j)})(k) + ReplaceAll(rest, SlotName(j), r)
  {
    var key, r := SlotName(j), FillInValue(vs[j], settings);
    var m, m' := FilledBut(cliSurface, vs, settings, pending), FilledBut(cliSurface, vs, settings, pending - {key});
    if SlotName(k) !in pending {
      var body := FillInValue(vs[k], settings);
      assert m(k) == Wrap(cliSurface, body) && m'(k) == Wrap(cliSurface, body);
      FilledSlotPasses(cliSurface, body, rest, j, r);
    } else if k == j {
      assert m(k) == Marker(cliSurface, j) && m'(k) == Wrap(cliSurface, r);
      MatchedMarkerReplaced(cliSurface, rest, j, r);
    } else {
      assert SlotName(k) != key by {
        SlotNamesDistinct(k, j);
      }
      assert m(k) == Marker(cliSurface, k) && m'(k) == Marker(cliSurface, k);
      OtherMarkerPasses(cliSurface, k, rest, j, r);
    }
  }

  /** When replacing `key` turns each marker m(i) of the query into m'(i)
      and leaves what follows it to the rest of the scan, and no other
      character of the query starts `key`, the rewritten query turns from
      the one with markers m into the one with markers m'. */
  lemma {:induction false} SlotsFromReplaced(s: string, m: nat -> string, m': nat -> string,
                                             key: string, r: string, k: nat)
    requires key != [] && key[0] !in s
    requires forall i: nat, x: string :: k <= i < k + Count(s, '?') ==>
               ReplaceAll(m(i) + x, key, r) == m'(i) + ReplaceAll(x, key, r)
    ensures ReplaceAll(SlotsFrom(s, m, k), key, r) == SlotsFrom(s, m', k)
    decreases |s|
  {
    if s != [] {
      assert key[0] !in s[1..] by {
        assert forall i :: 0 <= i < |s[1..]| ==> s[1..][i] == s[i + 1];
      }
      if s[0] == '?' {
        var tail := SlotsFrom(s[1..], m, k + 1);
        calc {
          ReplaceAll(SlotsFrom(s, m, k), key, r);
          ReplaceAll(m(k) + tail, key, r);
          m'(k) + ReplaceAll(tail, key, r);
          { SlotsFromReplaced(s[1..], m, m', key, r, k + 1); }
          m'(k) + SlotsFrom(s[1..], m', k + 1);
        }
      } else {
        assert s[0] != key[0] by {
          assert s[0] in s;
        }
        var tail := SlotsFrom(s[1..], m, k);
        calc {
          ReplaceAll(SlotsFrom(s, m, k), key, r);
          ReplaceAll([s[0]] + tail, key, r);
          { ReplaceAllPlainPrefix([s[0]], tail, key, r); }
          [s[0]] + ReplaceAll(tail, key, r);
          { SlotsFromReplaced(s[1..], m, m', key, r, k); }
          [s[0]] + SlotsFrom(s[1..], m', k);
        }
      }
    }
  }

  /** Replacing the name of slot j, a longest pending name, in the query
      rewritten by normalizeSlots fills slot j and changes nothing else. */
  lemma FillStep(sql: string, cliSurface: bool, vs: seq<Value>, settings: Settings,
                 pending: set<string>, j: nat)
    requires ':' !in sql
    requires Count(sql, '?') <= |vs| && j < |vs|
    requires forall key :: key in pending ==> |key| <= |SlotName(j)|
    requires ColonFreeValues(vs, settings)
    ensures ReplaceAll(SlotsFrom(sql, FilledBut(cliSurface, vs, settings, pending), 0),
                       SlotName(j), FillInValue(vs[j], settings))
            == SlotsFrom(sql, FilledBut(cliSurface, vs, settings, pending - {SlotName(j)}), 0)
  {
    var key, r := SlotName(j), FillInValue(vs[j], settings);
    var m, m' := FilledBut(cliSurface, vs, settings, pending), FilledBut(cliSurface, vs, settings, pending - {key});
    forall i: nat, x: string | 0 <= i < Count(sql, '?')
      ensures ReplaceAll(m(i) + x, key, r) == m'(i) + ReplaceAll(x, key, r)
    {
      MarkerStep(cliSurface, vs, settings, pending, j, i, x);
    }
    SlotNameShape(j);
    SlotsFromReplaced(sql, m, m', key, r, 0);
  }

  /** Every entry is some slot's binding. */
  predicate SlotEntriesOf(l: Assoc, vs: seq<Value>) {
    forall t :: 0 <= t < |l| ==> l[t] in SlotBindings(vs)
  }

  /** No pending key is longer than the first key of a list sorted
      longest key first. */
  lemma PendingNoLonger(l: Assoc, pending: set<string>)
    requires l != [] && LongestKeyFirst(l) && pending <= Keys(l)
    ensures forall name :: name in pending ==> |name| <= |l[0].0|
  {
    forall name | name in pending ensures |name| <= |l[0].0| {
      var t :| 0 <= t < |l| && l[t].0 == name;
    }
  }

  /** What is still pending once the first entry is done is among the
      keys of the others. */
  lemma PendingInTail(l: Assoc, pending: set<string>)
    requires l != [] && pending <= Keys(l)
    ensures pending - {l[0].0} <= Keys(l[1..])
  {
    KeysCons(l[0], l[1..]);
    assert [l[0]] + l[1..] == l;
  }

  lemma TailSlotEntries(l: Assoc, vs: seq<Value>)
    requires l != [] && SlotEntriesOf(l, vs)
    ensures SlotEntriesOf(l[1..], vs)
  {
    forall t | 0 <= t < |l[1..]| ensures l[1..][t] in SlotBindings(vs) {
      assert l[1..][t] == l[t + 1];
    }
  }

  /** Substituting slot bindings longest name first fills every pending
      slot: each name is replaced while no longer one is left. */
  lemma {:induction false} FillAll(sql: string, cliSurface: bool, vs: seq<Value>, settings: Settings,
                                   l: Assoc, pending: set<string>)
    requires ':' !in sql && Count(sql, '?') <= |vs| && ColonFreeValues(vs, settings)
    requires LongestKeyFirst(l) && SlotEntriesOf(l, vs)
    requires pending <= Keys(l)
    ensures Substitute(SlotsFrom(sql, FilledBut(cliSurface, vs, settings, pending), 0), l, settings)
            == SlotsFrom(sql, FilledBut(cliSurface, vs, settings, {}), 0)
    decreases |l|
  {
    if l == [] {
      assert pending == {};
    } else {
      var j :| 0 <= j < |vs| && SlotBindings(vs)[j] == l[0];
      var key, r := SlotName(j), FillInValue(vs[j], settings);
      assert l[0] == (key, vs[j]);
      PendingNoLonger(l, pending);
      PendingInTail(l, pending);
      TailLongestKeyFirst(l);
      TailSlotEntries(l, vs);
      var s := SlotsFrom(sql, FilledBut(cliSurface, vs, settings, pending), 0);
      assert Step(s, l[0], settings) == ReplaceAll(s, key, r) by {
        SlotNameShape(j);
        assert ":" <= key;
      }
      calc {
        Substitute(s, l, settings);
        Substitute(Step(s, l[0], settings), l[1..], settings);
        Substitute(ReplaceAll(s, key, r), l[1..], settings);
        { FillStep(sql, cliSurface, vs, settings, pending, j); }
        Substitute(SlotsFrom(sql, FilledBut(cliSurface, vs, settings, pending - {key}), 0), l[1..], settings);
        { FillAll(sql, cliSurface, vs, settings, l[1..], pending - {key}); }
        SlotsFrom(sql, FilledBut(cliSurface, vs, settings, {}), 0);
      }
    }
  }

  /** Two marker functions that agree everywhere rewrite a query alike. */
  lemma {:induction false} SlotsFromSameMarkers(s: string, m1: nat -> string, m2: nat -> string, k: nat)
    requires forall i: nat :: m1(i) == m2(i)
    ensures SlotsFrom(s, m1, k) == SlotsFrom(s, m2, k)
    decreases |s|
  {
    if s != [] {
      SlotsFromSameMarkers(s[1..], m1, m2, if s[0] == '?' then k + 1 else k);
    }
  }

  /** A reordering of the slot bindings holds only slot bindings. */
  lemma PermutedSlotEntries(l: Assoc, vs: seq<Value>)
    requires multiset(l) == multiset(SlotBindings(vs))
    ensures SlotEntriesOf(l, vs)
  {
    var b := SlotBindings(vs);
    forall t | 0 <= t < |l| ensures l[t] in b {
      assert l[t] in multiset(l);
    }
  }

  /** A reordering of the slot bindings keeps every bound slot's name. */
  lemma PermutedSlotKeys(l: Assoc, vs: seq<Value>)
    requires multiset(l) == multiset(SlotBindings(vs))
    ensures forall k :: 0 <= k < |vs| ==> SlotName(k) in Keys(l)
  {
    var b := SlotBindings(vs);
    forall k | 0 <= k < |vs| ensures SlotName(k) in Keys(l) {
      assert b[k] in multiset(l);
      var t :| 0 <= t < |l| && l[t] == b[k];
    }
  }

  /** While every bound slot is pending, the query is the one
      normalizeSlots returns. */
  lemma AllPendingIsNormalized(sql: string, cliSurface: bool, vs: seq<Value>, settings: Settings,
                               pending: set<string>)
    requires forall k :: 0 <= k < |vs| ==> SlotName(k) in pending
    ensures SlotsFrom(sql, FilledBut(cliSurface, vs, settings, pending), 0)
            == SlotsFrom(sql, Markers(cliSurface), 0)
  {
    forall i: nat ensures FilledBut(cliSurface, vs, settings, pending)(i) == Markers(cliSurface)(i) {
    }
    SlotsFromSameMarkers(sql, FilledBut(cliSurface, vs, settings, pending), Markers(cliSurface), 0);
  }

  /** log($sql, $values) with positional values fills each `?` with its
      own value: when the query holds no `:` of its own, there are enough
      values for its `?`s and no rendered value holds a `:`, the k-th `?`
      becomes the k-th value, rendered by fillInValue and set in the
      slot markup, and the rest of the query is kept as it is. */
  lemma PositionalCallFillsEverySlot(sql: string, vs: seq<Value>, settings: Settings, cliSurface: bool)
    requires ':' !in sql && Count(sql, '?') <= |vs| && ColonFreeValues(vs, settings)
    ensures Formatted(sql, Positional(vs), settings, cliSurface)
            == SlotsFrom(sql, FilledBut(cliSurface, vs, settings, {}), 0)
  {
    PositionalBindingsAlign(vs);
    var l := SortByKeyLength(SlotBindings(vs));
    assert Formatted(sql, Positional(vs), settings, cliSurface)
           == Substitute(SlotsFrom(sql, Markers(cliSurface), 0), l, settings);
    PermutedSlotEntries(l, vs);
    PermutedSlotKeys(l, vs);
    AllPendingIsNormalized(sql, cliSurface, vs, settings, Keys(l));
    FillAll(sql, cliSurface, vs, settings, l, Keys(l));
  }

  /** The k-th `?` of the query, counting from 0, holds the k-th value. */
  lemma KthMarkHoldsKthValue(a: string, b: string, vs: seq<Value>, settings: Settings, cliSurface: bool)
    requires ':' !in a + "?" + b && Count(a + "?" + b, '?') <= |vs| && ColonFreeValues(vs, settings)
    ensures var k, filled := Count(a, '?'), FilledBut(cliSurface, vs, settings, {});
            && k < |vs|
            && Formatted(a + "?" + b, Positional(vs), settings, cliSurface)
               == SlotsFrom(a, filled, 0) + Wrap(cliSurface, FillInValue(vs[k], settings)) + SlotsFrom(b, filled, k + 1)
  {
    var k, filled := Count(a, '?'), FilledBut(cliSurface, vs, settings, {});
    CountConcat(a, "?", '?');
    CountConcat(a + "?", b, '?');
    PositionalCallFillsEverySlot(a + "?" + b, vs, settings, cliSurface);
    KthQuestionMark(a, b, filled);
    assert filled(k) == Wrap(cliSurface, FillInValue(vs[k], settings));
  }

  /** A query with one `?` and one value: the `?` is replaced by the
      rendered value in the slot markup, and the text around it is kept. */
  lemma OneValueCall(a: string, b: string, v: Value, settings: Settings, cliSurface: bool)
    requires ':' !in a + "?" + b && '?' !in a && '?' !in b
    requires ':' !in FillInValue(v, settings)
    ensures Formatted(a + "?" + b, Positional([v]), settings, cliSurface)
            == a + Wrap(cliSurface, FillInValue(v, settings)) + b
  {
    var vs, filled := [v], FilledBut(cliSurface, [v], settings, {});
    assert ColonFreeValues(vs, settings) by {
      assert forall k :: 0 <= k < |vs| ==> vs[k] == v;
    }
    assert Count(a, '?') == 0 && Count(b, '?') == 0;
    assert Count(a + "?" + b, '?') == 1 by {
      CountConcat(a, "?", '?');
      CountConcat(a + "?", b, '?');
    }
    calc {
      Formatted(a + "?" + b, Positional(vs), settings, cliSurface);
      { KthMarkHoldsKthValue(a, b, vs, settings, cliSurface); }
      SlotsFrom(a, filled, 0) + Wrap(cliSurface, FillInValue(vs[0], settings)) + SlotsFrom(b, filled, 1);
      { SlotsFromIdentity(a, filled, 0); SlotsFromIdentity(b, filled, 1); }
      a + Wrap(cliSurface, FillInValue(v, settings)) + b;
    }
  }
}
