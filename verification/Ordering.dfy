/** The byte order of ids, which for UTF-8 text is the lexicographic order of the characters,
    and sorting by it. */
module Ordering {
  import opened Records

  predicate TextBelow(a: string, b: string) {
    b != [] && (a == [] || a[0] < b[0] || (a[0] == b[0] && TextBelow(a[1..], b[1..])))
  }

  lemma {:induction false} TextBelowTransitive(a: string, b: string, c: string)
    requires TextBelow(a, b) && TextBelow(b, c)
    ensures TextBelow(a, c)
  {
    if a != [] && a[0] == b[0] == c[0] {
      TextBelowTransitive(a[1..], b[1..], c[1..]);
    }
  }

  lemma {:induction false} TextBelowTotal(a: string, b: string)
    ensures a == b || TextBelow(a, b) || TextBelow(b, a)
    ensures !(TextBelow(a, b) && TextBelow(b, a))
  {
    if a != [] && b != [] && a[0] == b[0] {
      TextBelowTotal(a[1..], b[1..]);
      assert a == [a[0]] + a[1..] && b == [b[0]] + b[1..];
    }
  }

  /** What the order is: one text extends the other, or the first different characters decide. */
  lemma {:induction false} BelowIsLexicographic(a: string, b: string)
    ensures TextBelow(a, b) <==>
              exists n: nat :: n <= |a| && n < |b| && a[..n] == b[..n] && (n == |a| || a[n] < b[n])
  {
    if a != [] && b != [] && a[0] == b[0] {
      var s, t := a[1..], b[1..];
      BelowIsLexicographic(s, t);
      forall n: nat | n <= |s| && n < |t| ensures s[..n] == t[..n] <==> a[..n + 1] == b[..n + 1] {
        assert a[..n + 1] == [a[0]] + s[..n] && b[..n + 1] == [b[0]] + t[..n];
        assert a[..n + 1][1..] == s[..n] && b[..n + 1][1..] == t[..n];
      }
      if TextBelow(a, b) {
        var n: nat :| n <= |s| && n < |t| && s[..n] == t[..n] && (n == |s| || s[n] < t[n]);
        assert a[..n + 1] == b[..n + 1];
      }
      if n: nat :| n <= |a| && n < |b| && a[..n] == b[..n] && (n == |a| || a[n] < b[n]) {
        assert n > 0 && s[..n - 1] == t[..n - 1];
      }
    } else {
      assert a[..0] == b[..0] == [];
      forall n: nat | 0 < n <= |a| && n <= |b| ensures a[..n] != b[..n] {
        assert a[..n][0] == a[0] && b[..n][0] == b[0];
      }
    }
  }

  predicate Below(a: Id, b: Id) {
    TextBelow(a.text, b.text)
  }

  lemma BelowTransitive(a: Id, b: Id, c: Id)
    requires Below(a, b) && Below(b, c)
    ensures Below(a, c)
  {
    TextBelowTransitive(a.text, b.text, c.text);
  }

  lemma BelowTotal(a: Id, b: Id)
    ensures a == b || Below(a, b) || Below(b, a)
    ensures !(Below(a, b) && Below(b, a))
    ensures a == b ==> !Below(a, b)
  {
    TextBelowTotal(a.text, b.text);
  }

  predicate StrictlySorted(s: seq<Id>) {
    forall i, j :: 0 <= i < j < |s| ==> Below(s[i], s[j])
  }

  lemma StrictlySortedNoRepeats(s: seq<Id>)
    requires StrictlySorted(s)
    ensures NoRepeats(s)
  {
    forall i, j | 0 <= i < j < |s| ensures s[i] != s[j] { BelowTotal(s[i], s[j]); }
  }

  /** A strictly sorted list is determined by its elements. */
  lemma {:induction false} SortedUnique(s: seq<Id>, t: seq<Id>)
    requires StrictlySorted(s) && StrictlySorted(t)
    requires Elements(s) == Elements(t)
    ensures s == t
  {
    assert t != [] ==> t[0] in Elements(t);
    if s != [] {
      assert s[0] in Elements(t) && t[0] in Elements(s);
      BelowTotal(s[0], t[0]);
      assert s[0] == t[0];
      StrictlySortedNoRepeats(s);
      StrictlySortedNoRepeats(t);
      assert Elements(s[1..]) == Elements(s) - {s[0]};
      assert Elements(t[1..]) == Elements(t) - {t[0]};
      SortedUnique(s[1..], t[1..]);
      assert s == [s[0]] + s[1..] && t == [t[0]] + t[1..];
    }
  }

  function InsertSorted(x: Id, s: seq<Id>): (r: seq<Id>)
    ensures multiset(r) == multiset(s) + multiset{x}
  {
    if s == [] then [x]
    else if Below(s[0], x) then
      assert s == [s[0]] + s[1..];
      [s[0]] + InsertSorted(x, s[1..])
    else [x] + s
  }

  /** The ids in increasing order, which is also the order in which sorted sets and maps of ids are walked. */
  function Sort(s: seq<Id>): (r: seq<Id>)
    ensures multiset(r) == multiset(s)
  {
    if s == [] then []
    else
      assert s == [s[0]] + s[1..];
      InsertSorted(s[0], Sort(s[1..]))
  }

  lemma {:induction false} InsertKeepsSorted(x: Id, s: seq<Id>)
    requires StrictlySorted(s) && x !in s
    ensures StrictlySorted(InsertSorted(x, s))
  {
    if s == [] {
    } else if Below(s[0], x) {
      InsertKeepsSorted(x, s[1..]);
      var r := InsertSorted(x, s[1..]);
      forall j | 0 <= j < |r| ensures Below(s[0], r[j]) {
        assert r[j] in multiset(r);
        if r[j] != x {
          assert r[j] in s[1..];
        }
      }
    } else {
      BelowTotal(s[0], x);
      forall j | 0 <= j < |s| ensures Below(x, s[j]) {
        if j > 0 { BelowTransitive(x, s[0], s[j]); }
      }
    }
  }

  lemma SortElements(s: seq<Id>)
    ensures Elements(Sort(s)) == Elements(s)
    ensures |Sort(s)| == |s|
  {
    assert |multiset(Sort(s))| == |Sort(s)| && |multiset(s)| == |s|;
    forall x ensures x in Sort(s) <==> x in s {
      assert x in multiset(Sort(s)) <==> x in multiset(s);
    }
  }

  lemma {:induction false} SortIsSorted(s: seq<Id>)
    requires NoRepeats(s)
    ensures StrictlySorted(Sort(s))
  {
    if s != [] {
      SortIsSorted(s[1..]);
      SortElements(s[1..]);
      assert s[0] !in Elements(s[1..]);
      InsertKeepsSorted(s[0], Sort(s[1..]));
    }
  }
}
