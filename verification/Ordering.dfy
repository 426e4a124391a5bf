/** The order of texts, and sorting dictionary entries by it. */
module Ordering {
  import opened Dicts

  /** Text compares character by character. */
  predicate Before(a: string, b: string) {
    if a == "" || b == "" then b != ""
    else a[0] < b[0] || (a[0] == b[0] && Before(a[1..], b[1..]))
  }

  /** The texts agree before place `i`, where `a` has the smaller character. */
  ghost predicate SmallerAt(a: string, b: string, i: nat) {
    i < |a| && i < |b| && a[..i] == b[..i] && a[i] < b[i]
  }

  lemma SmallerLater(a: string, b: string, i: nat)
    requires a != "" && b != "" && a[0] == b[0]
    ensures SmallerAt(a[1..], b[1..], i) <==> SmallerAt(a, b, i + 1)
    ensures !SmallerAt(a, b, 0)
  {
    if i + 1 <= |a| && i + 1 <= |b| {
      assert a[..i + 1] == [a[0]] + a[1..][..i] && b[..i + 1] == [b[0]] + b[1..][..i];
      assert a[..i + 1][1..] == a[1..][..i] && b[..i + 1][1..] == b[1..][..i];
    }
  }

  lemma AgreeFirst(a: string, b: string, i: nat)
    requires 0 < i <= |a| && i <= |b| && a[..i] == b[..i]
    ensures a[0] == b[0]
  {
    assert a[..i][0] == a[0] && b[..i][0] == b[0];
  }

  lemma SmallerFirst(a: string, b: string)
    requires a != "" && b != "" && a[0] != b[0]
    ensures (exists i: nat :: SmallerAt(a, b, i)) <==> a[0] < b[0]
    ensures !(a < b)
  {
    assert a[0] < b[0] ==> SmallerAt(a, b, 0);
    if i: nat :| SmallerAt(a, b, i) {
      if i > 0 {
        AgreeFirst(a, b, i);
      }
    }
  }

  lemma PrefixTail(a: string, b: string)
    requires a != "" && b != "" && a[0] == b[0]
    ensures a < b <==> a[1..] < b[1..]
  {
    if a[1..] < b[1..] {
      assert forall i :: 0 < i < |a| ==> a[i] == a[1..][i - 1] && b[i] == b[1..][i - 1];
    }
  }

  /** One text comes before another when it is a proper prefix of it, or has the smaller character at the
      first place where they differ. */
  lemma {:induction false} BeforeExactly(a: string, b: string)
    ensures Before(a, b) <==> a < b || exists i: nat :: SmallerAt(a, b, i)
  {
    hide SmallerAt;
    if a == "" || b == "" {
      NoneSmaller(a, b);
    } else if a[0] != b[0] {
      SmallerFirst(a, b);
    } else {
      BeforeExactly(a[1..], b[1..]);
      PrefixTail(a, b);
      forall i: nat
        ensures SmallerAt(a[1..], b[1..], i) <==> SmallerAt(a, b, i + 1)
      {
        SmallerLater(a, b, i);
      }
      SmallerLater(a, b, 0);
      if i: nat :| SmallerAt(a, b, i) {
        assert SmallerAt(a[1..], b[1..], i - 1);
      }
    }
  }

  lemma NoneSmaller(a: string, b: string)
    requires a == "" || b == ""
    ensures !exists i: nat :: SmallerAt(a, b, i)
  {}

  lemma {:induction false} BeforeTotal(a: string, b: string)
    ensures Before(a, b) || a == b || Before(b, a)
    ensures !(Before(a, b) && Before(b, a)) && !Before(a, a)
  {
    if a != "" && b != "" {
      BeforeTotal(a[1..], b[1..]);
      BeforeTotal(a[1..], a[1..]);
      assert a == [a[0]] + a[1..] && b == [b[0]] + b[1..];
    } else if a != "" {
      BeforeTotal(a[1..], a[1..]);
    }
  }

  lemma {:induction false} BeforeTransitive(a: string, b: string, c: string)
    requires Before(a, b) && Before(b, c)
    ensures Before(a, c)
  {
    if a != "" && b != "" && c != "" && a[0] == b[0] && b[0] == c[0] {
      BeforeTransitive(a[1..], b[1..], c[1..]);
    }
  }

  // ----- Sorting entries by key -----

  ghost predicate SortedByKey<V>(d: Dict<string, V>) {
    forall i, j :: 0 <= i < j < |d| ==> Before(d[i].key, d[j].key)
  }

  function InsertByKey<V>(d: Dict<string, V>, e: Entry<string, V>): Dict<string, V> {
    if d == [] || Before(e.key, d[0].key) then [e] + d else [d[0]] + InsertByKey(d[1..], e)
  }

  /** `sorted(d.items())` for distinct keys */
  function SortByKey<V>(d: Dict<string, V>): Dict<string, V> {
    if d == [] then [] else InsertByKey(SortByKey(d[..|d| - 1]), d[|d| - 1])
  }

  lemma {:induction false} InsertElements<V>(d: Dict<string, V>, e: Entry<string, V>)
    ensures multiset(InsertByKey(d, e)) == multiset(d) + multiset{e}
  {
    if d != [] && !Before(e.key, d[0].key) {
      InsertElements(d[1..], e);
      assert d == [d[0]] + d[1..];
    }
  }

  lemma {:induction false} SortElements<V>(d: Dict<string, V>)
    ensures multiset(SortByKey(d)) == multiset(d)
  {
    if d != [] {
      SortElements(d[..|d| - 1]);
      InsertElements(SortByKey(d[..|d| - 1]), d[|d| - 1]);
      assert d == d[..|d| - 1] + [d[|d| - 1]];
    }
  }

  lemma {:induction false} InsertKeys<V>(d: Dict<string, V>, e: Entry<string, V>)
    ensures multiset(Keys(InsertByKey(d, e))) == multiset(Keys(d)) + multiset{e.key}
  {
    if d == [] || Before(e.key, d[0].key) {
      KeysCons(e, d);
    } else {
      InsertKeys(d[1..], e);
      KeysCons(d[0], d[1..]);
      KeysCons(d[0], InsertByKey(d[1..], e));
      assert d == [d[0]] + d[1..];
    }
  }

  lemma {:induction false} SortKeys<V>(d: Dict<string, V>)
    ensures multiset(Keys(SortByKey(d))) == multiset(Keys(d))
  {
    if d != [] {
      var front, last := d[..|d| - 1], d[|d| - 1];
      SortKeys(front);
      InsertKeys(SortByKey(front), last);
      assert Keys(d) == Keys(front) + [last.key];
    }
  }

  /** Every key of the list comes after the given one. */
  ghost predicate After<V>(d: Dict<string, V>, key: string) {
    forall i :: 0 <= i < |d| ==> Before(key, d[i].key)
  }

  lemma {:induction false} InsertAfter<V>(d: Dict<string, V>, e: Entry<string, V>, key: string)
    requires After(d, key) && Before(key, e.key)
    ensures After(InsertByKey(d, e), key)
  {
    hide Before;
    if d != [] && !Before(e.key, d[0].key) {
      InsertAfter(d[1..], e, key);
    }
  }

  lemma AfterHead<V>(d: Dict<string, V>, key: string)
    requires SortedByKey(d) && d != [] && Before(key, d[0].key)
    ensures After(d, key)
  {
    hide Before;
    forall i | 0 < i < |d|
      ensures Before(key, d[i].key)
    {
      BeforeTransitive(key, d[0].key, d[i].key);
    }
  }

  lemma SortedCons<V>(e: Entry<string, V>, d: Dict<string, V>)
    requires SortedByKey(d) && After(d, e.key)
    ensures SortedByKey([e] + d)
  {
    hide Before;
  }

  lemma {:induction false} InsertSorted<V>(d: Dict<string, V>, e: Entry<string, V>)
    requires SortedByKey(d) && forall i :: 0 <= i < |d| ==> d[i].key != e.key
    ensures SortedByKey(InsertByKey(d, e))
  {
    hide Before;
    if d == [] {
      assert InsertByKey(d, e) == [e];
    } else if Before(e.key, d[0].key) {
      AfterHead(d, e.key);
      SortedCons(e, d);
    } else {
      BeforeTotal(e.key, d[0].key);
      InsertSorted(d[1..], e);
      InsertAfter(d[1..], e, d[0].key);
      SortedCons(d[0], InsertByKey(d[1..], e));
    }
  }

  /** Distinct keys are sorted strictly. */
  lemma {:induction false} SortSorts<V>(d: Dict<string, V>)
    requires Distinct(d)
    ensures SortedByKey(SortByKey(d))
  {
    if d != [] {
      hide SortedByKey;
      var front, last := d[..|d| - 1], d[|d| - 1];
      SortSorts(front);
      SortElements(front);
      var s := SortByKey(front);
      forall i | 0 <= i < |s|
        ensures s[i].key != last.key
      {
        assert s[i] in multiset(front);
        var j :| 0 <= j < |front| && front[j] == s[i];
        assert d[j] == front[j];
      }
      InsertSorted(s, last);
    } else {
      assert SortByKey(d) == [];
    }
  }

  lemma {:induction false} InsertLast<V>(d: Dict<string, V>, e: Entry<string, V>)
    requires forall i :: 0 <= i < |d| ==> Before(d[i].key, e.key)
    ensures InsertByKey(d, e) == d + [e]
  {
    if d != [] {
      BeforeTotal(d[0].key, e.key);
      hide Before;
      InsertLast(d[1..], e);
      assert d == [d[0]] + d[1..];
    }
  }

  /** Sorting a sorted list changes nothing. */
  lemma {:induction false} SortIdempotent<V>(d: Dict<string, V>)
    requires SortedByKey(d)
    ensures SortByKey(d) == d
  {
    if d != [] {
      hide Before;
      SortIdempotent(d[..|d| - 1]);
      InsertLast(d[..|d| - 1], d[|d| - 1]);
      assert d == d[..|d| - 1] + [d[|d| - 1]];
    }
  }
}
