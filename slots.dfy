/** normalizeSlots: rewrites every positional `?` of a query into a named
    slot `:slotN`, numbered from 0 left to right, wrapped in the markup of
    the surface the log is written for. */
module Slots {
  import opened Strings

  /** The name of the k-th slot. */
  function SlotName(k: nat): (name: string)
    ensures |name| > 5 && name[..5] == ":slot"
    ensures AllDigits(name[5..])
  {
    ":slot" + DecimalString(k)
  }

  /** The markup that opens a slot: ANSI green on the command-line
      surface, a green bold HTML element otherwise. */
  function Open(cliSurface: bool): string {
    if cliSurface then "\U{1B}[32m" else "<b style=\"color:green\">"
  }

  /** The markup that closes a slot: back to the default colour, or the
      end of the HTML element. */
  function Close(cliSurface: bool): string {
    if cliSurface then "\U{1B}[39m" else "</b>"
  }

  /** The markup around a slot name. */
  function Wrap(cliSurface: bool, slot: string): string {
    Open(cliSurface) + slot + Close(cliSurface)
  }

  /** What the k-th `?` turns into. */
  function Marker(cliSurface: bool, k: nat): string {
    Wrap(cliSurface, SlotName(k))
  }

  lemma MarkerHasNoQuestionMark(cliSurface: bool, k: nat)
    ensures '?' !in Marker(cliSurface, k)
  {
    var d := DecimalString(k);
    assert '?' !in d by {
      forall i | 0 <= i < |d| ensures d[i] != '?' {
        assert IsDigit(d[i]);
      }
    }
  }

  /** The markers of one surface, by slot number. */
  function Markers(cliSurface: bool): nat -> string {
    (k: nat) => Marker(cliSurface, k)
  }

  /** No marker holds a `?`. */
  ghost predicate QuestionFree(marker: nat -> string) {
    forall k :: '?' !in marker(k)
  }

  lemma MarkersQuestionFree(cliSurface: bool)
    ensures QuestionFree(Markers(cliSurface))
  {
    forall k: nat ensures '?' !in Markers(cliSurface)(k) {
      MarkerHasNoQuestionMark(cliSurface, k);
    }
  }

  /** The rewritten query, character by character: every `?` becomes the
      marker of the next slot number, starting from k; every other
      character is kept in place. */
  function SlotsFrom(s: string, marker: nat -> string, k: nat): string {
    if s == [] then []
    else if s[0] == '?' then marker(k) + SlotsFrom(s[1..], marker, k + 1)
    else [s[0]] + SlotsFrom(s[1..], marker, k)
  }

  /** A query without `?` is returned unchanged. */
  lemma {:induction false} SlotsFromIdentity(s: string, marker: nat -> string, k: nat)
    requires '?' !in s
    ensures SlotsFrom(s, marker, k) == s
  {
    if s != [] {
      assert s[0] in s;
      SlotsFromIdentity(s[1..], marker, k);
      assert [s[0]] + s[1..] == s;
    }
  }

  /** No `?` is left in the rewritten query. */
  lemma {:induction false} SlotsFromNoQuestionMark(s: string, marker: nat -> string, k: nat)
    requires QuestionFree(marker)
    ensures '?' !in SlotsFrom(s, marker, k)
  {
    if s != [] {
      if s[0] == '?' {
        SlotsFromNoQuestionMark(s[1..], marker, k + 1);
      } else {
        SlotsFromNoQuestionMark(s[1..], marker, k);
      }
    }
  }

  /** Slot numbers run on from left to right: the right part of a query
      continues counting after the `?`s of the left part. */
  lemma {:induction false} SlotsFromConcat(a: string, b: string, marker: nat -> string, k: nat)
    ensures SlotsFrom(a + b, marker, k)
            == SlotsFrom(a, marker, k) + SlotsFrom(b, marker, k + Count(a, '?'))
  {
    if a == [] {
      assert a + b == b;
    } else {
      var c := a[0];
      var a' := a[1..];
      assert (a + b)[0] == c && (a + b)[1..] == a' + b;
      if c == '?' {
        var m := marker(k);
        SlotsFromConcat(a', b, marker, k + 1);
        calc {
          SlotsFrom(a + b, marker, k);
          m + SlotsFrom(a' + b, marker, k + 1);
          m + (SlotsFrom(a', marker, k + 1) + SlotsFrom(b, marker, k + 1 + Count(a', '?')));
          (m + SlotsFrom(a', marker, k + 1)) + SlotsFrom(b, marker, k + Count(a, '?'));
        }
      } else {
        SlotsFromConcat(a', b, marker, k);
        calc {
          SlotsFrom(a + b, marker, k);
          [c] + SlotsFrom(a' + b, marker, k);
          [c] + (SlotsFrom(a', marker, k) + SlotsFrom(b, marker, k + Count(a', '?')));
          ([c] + SlotsFrom(a', marker, k)) + SlotsFrom(b, marker, k + Count(a, '?'));
        }
      }
    }
  }

  /** A leading `?` becomes the marker of slot k. */
  lemma SlotsFromQuestion(b: string, marker: nat -> string, k: nat)
    ensures SlotsFrom("?" + b, marker, k) == marker(k) + SlotsFrom(b, marker, k + 1)
  {
    var s := "?" + b;
    assert s[0] == '?' && s[1..] == b;
  }

  /** The j-th `?` of a query (counting from 0) becomes the marker of slot j,
      with the text before and after it rewritten independently. */
  lemma KthQuestionMark(a: string, b: string, marker: nat -> string)
    ensures var j := Count(a, '?');
            SlotsFrom(a + "?" + b, marker, 0)
            == SlotsFrom(a, marker, 0) + marker(j) + SlotsFrom(b, marker, j + 1)
  {
    var j := Count(a, '?');
    SlotsFromConcat(a, "?" + b, marker, 0);
    SlotsFromQuestion(b, marker, j);
    assert a + "?" + b == a + ("?" + b);
  }

  /** Rewriting at the first `?`: the text before it is kept, the `?` becomes
      the marker of slot k and the rest is rewritten from slot k + 1. */
  lemma SlotsFromFirst(s: string, marker: nat -> string, k: nat, q: nat)
    requires q < |s| && s[q] == '?' && '?' !in s[..q]
    ensures SlotsFrom(s, marker, k)
            == s[..q] + marker(k) + SlotsFrom(s[q + 1..], marker, k + 1)
  {
    var pre, post := s[..q], s[q + 1..];
    assert s == pre + ("?" + post);
    SlotsFromConcat(pre, "?" + post, marker, k);
    SlotsFromIdentity(pre, marker, k);
    assert Count(pre, '?') == 0;
    SlotsFromQuestion(post, marker, k);
  }

  /** In a query split into a rewritten part without `?` and a part still to
      rewrite, the first `?` lies in the second part. */
  lemma FirstInRest(done: string, rest: string, pos: nat)
    requires '?' !in done
    requires pos < |done + rest| && (done + rest)[pos] == '?' && '?' !in (done + rest)[..pos]
    ensures |done| <= pos
    ensures var q := pos - |done|;
            && q < |rest| && rest[q] == '?' && '?' !in rest[..q]
            && (done + rest)[..pos] == done + rest[..q]
            && (done + rest)[pos + 1..] == rest[q + 1..]
  {
    var newSql := done + rest;
    var q := pos - |done|;
    assert rest[q] == newSql[pos];
    assert '?' !in rest[..q] by {
      forall t | 0 <= t < q ensures rest[t] != '?' {
        assert rest[t] == newSql[..pos][|done| + t];
      }
    }
    assert newSql[..pos] == done + rest[..q];
  }

  /** Putting a text without `?` in the place of one `?` removes exactly one. */
  lemma ReplaceOneCount(begin: string, m: string, end: string)
    requires '?' !in m
    ensures Count(begin + m + end, '?') + 1 == Count(begin + "?" + end, '?')
  {
    CountConcat(begin + m, end, '?');
    CountConcat(begin, m, '?');
    CountConcat(begin + "?", end, '?');
    CountConcat(begin, "?", '?');
  }

  /** One pass of the loop of NormalizeSlots: replacing the first `?` by a
      marker moves the rewritten/remaining split one `?` further and
      removes exactly one `?`. */
  lemma NormalizeStep(done: string, rest: string, pos: nat, marker: nat -> string, i: nat)
    requires QuestionFree(marker)
    requires '?' !in done
    requires pos < |done + rest| && (done + rest)[pos] == '?' && '?' !in (done + rest)[..pos]
    ensures |done| <= pos
    ensures var q := pos - |done|;
            var newSql := done + rest;
            var m := marker(i);
            var next := newSql[..pos] + m + newSql[pos + 1..];
            && q < |rest|
            && next == (done + rest[..q] + m) + rest[q + 1..]
            && '?' !in done + rest[..q] + m
            && done + SlotsFrom(rest, marker, i)
               == (done + rest[..q] + m) + SlotsFrom(rest[q + 1..], marker, i + 1)
            && Count(next, '?') + 1 == Count(newSql, '?')
  {
    var newSql := done + rest;
    FirstInRest(done, rest, pos);
    var q := pos - |done|;
    var m := marker(i);
    var begin, end := newSql[..pos], newSql[pos + 1..];
    assert begin == done + rest[..q] && end == rest[q + 1..];
    assert done + SlotsFrom(rest, marker, i)
           == (done + rest[..q] + m) + SlotsFrom(rest[q + 1..], marker, i + 1) by {
      SlotsFromFirst(rest, marker, i, q);
    }
    assert Count(begin + m + end, '?') + 1 == Count(newSql, '?') by {
      assert newSql == begin + "?" + end;
      ReplaceOneCount(begin, m, end);
    }
    assert '?' !in begin + m by {
      CountConcat(done, rest[..q], '?');
      CountConcat(begin, m, '?');
    }
  }

  /** normalizeSlots: while the query still holds a `?`, cut it at the first
      one and put the next slot's marker in its place. */
  method NormalizeSlots(sql: string, cliSurface: bool) returns (newSql: string)
    ensures newSql == SlotsFrom(sql, Markers(cliSurface), 0)
    ensures '?' !in newSql
    ensures '?' !in sql ==> newSql == sql
  {
    ghost var markers := Markers(cliSurface);
    MarkersQuestionFree(cliSurface);
    newSql := sql;
    var i: nat := 0;
    ghost var done: string := [];
    ghost var rest: string := sql;
    while Find(newSql, '?').Some?
      invariant newSql == done + rest
      invariant '?' !in done
      invariant done + SlotsFrom(rest, markers, i) == SlotsFrom(sql, markers, 0)
      decreases Count(newSql, '?')
    {
      var pos := Find(newSql, '?').value;
      var slot := SlotName(i);
      var begin := newSql[..pos];
      var end := newSql[pos + 1..];
      var marker := Wrap(cliSurface, slot);
      assert markers(i) == marker;
      NormalizeStep(done, rest, pos, markers, i);
      ghost var q := pos - |done|;
      ghost var done' := done + rest[..q] + marker;
      newSql := begin + marker + end;
      done, rest := done', rest[q + 1..];
      i := i + 1;
    }
    SlotsFromIdentity(rest, markers, i);
    SlotsFromNoQuestionMark(sql, markers, 0);
    if '?' !in sql {
      SlotsFromIdentity(sql, markers, 0);
    }
  }
}
