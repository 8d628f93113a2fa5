/** Ordering of file names as Python's `sorted` sees them: Python compares
    `str` values code point by code point, and a proper prefix sorts first. */
module NameOrder {

  /** `a < b` on Python strings. */
  predicate Below(a: string, b: string)
    decreases |a|
  {
    if |a| == 0 then |b| > 0
    else |b| > 0 && (a[0] < b[0] || (a[0] == b[0] && Below(a[1..], b[1..])))
  }

  /** Python's rule for `a < b`: `a` is a proper prefix of `b`, or at the first
      index where they differ `a` has the smaller code point. Below walks the two
      strings from the front and agrees with that rule on every pair. */
  lemma {:induction false} BelowIsFirstDifference(a: string, b: string)
    decreases |a|
    ensures Below(a, b) <==> ProperPrefix(a, b) || exists i: nat :: SmallerAt(a, b, i)
  {
    if |a| > 0 && |b| > 0 {
      FirstDifferenceStep(a, b);
      BelowIsFirstDifference(a[1..], b[1..]);
    }
  }

  /** `a` is a proper prefix of `b`. */
  ghost predicate ProperPrefix(a: string, b: string) {
    |a| < |b| && a == b[..|a|]
  }

  /** `a` and `b` agree before index `i`, and `a` has the smaller code point at `i`. */
  ghost predicate SmallerAt(a: string, b: string, i: nat) {
    i < |a| && i < |b| && a[..i] == b[..i] && a[i] < b[i]
  }

  /** Both descriptions of the order look at the first code points, then at the rest. */
  lemma FirstDifferenceStep(a: string, b: string)
    requires |a| > 0 && |b| > 0
    ensures ProperPrefix(a, b) <==> a[0] == b[0] && ProperPrefix(a[1..], b[1..])
    ensures (exists i: nat :: SmallerAt(a, b, i))
        <==> a[0] < b[0] || (a[0] == b[0] && exists i: nat :: SmallerAt(a[1..], b[1..], i))
  {
    assert a == [a[0]] + a[1..];
    if |a| < |b| {
      assert b[..|a|] == [b[0]] + b[1..][..|a| - 1];
    }
    if exists i: nat :: SmallerAt(a, b, i) {
      var i: nat :| SmallerAt(a, b, i);
      if i > 0 {
        assert a[..i][0] == b[..i][0];
        assert a[1..][..i - 1] == a[..i][1..];
        assert b[1..][..i - 1] == b[..i][1..];
        assert SmallerAt(a[1..], b[1..], i - 1);
      }
    }
    if a[0] < b[0] {
      assert SmallerAt(a, b, 0);
    }
    if a[0] == b[0] && exists i: nat :: SmallerAt(a[1..], b[1..], i) {
      var i: nat :| SmallerAt(a[1..], b[1..], i);
      assert a[..i + 1] == [a[0]] + a[1..][..i];
      assert b[..i + 1] == [b[0]] + b[1..][..i];
      assert SmallerAt(a, b, i + 1);
    }
  }

  /** `a <= b` on Python strings. */
  predicate AtMost(a: string, b: string) {
    a == b || Below(a, b)
  }

  lemma {:induction false} BelowIrreflexive(a: string)
    ensures !Below(a, a)
  {
    if |a| > 0 {
      BelowIrreflexive(a[1..]);
    }
  }

  lemma {:induction false} BelowTransitive(a: string, b: string, c: string)
    requires Below(a, b) && Below(b, c)
    ensures Below(a, c)
  {
    if |a| > 0 && a[0] == b[0] && b[0] == c[0] {
      BelowTransitive(a[1..], b[1..], c[1..]);
    }
  }

  /** Any two names are comparable: the order is total. */
  lemma {:induction false} BelowTotal(a: string, b: string)
    ensures a == b || Below(a, b) || Below(b, a)
  {
    if |a| > 0 && |b| > 0 && a[0] == b[0] {
      BelowTotal(a[1..], b[1..]);
      if a[1..] == b[1..] {
        assert a == [a[0]] + a[1..] && b == [b[0]] + b[1..];
      }
    }
  }

  lemma BelowAsymmetric(a: string, b: string)
    requires Below(a, b)
    ensures !Below(b, a)
  {
  }

  lemma AtMostTransitive(a: string, b: string, c: string)
    requires AtMost(a, b) && AtMost(b, c)
    ensures AtMost(a, c)
  {
    if a != b && b != c {
      BelowTransitive(a, b, c);
    }
  }

  /** Every pair in order, as `sorted` delivers it. */
  ghost predicate Sorted(s: seq<string>) {
    forall i, j :: 0 <= i < j < |s| ==> AtMost(s[i], s[j])
  }

  /** Every pair strictly in order: sorted and free of repetitions. */
  ghost predicate StrictlyAscending(s: seq<string>) {
    forall i, j :: 0 <= i < j < |s| ==> Below(s[i], s[j])
  }

  /** Places `x` before the first element it does not exceed. */
  function Insert(x: string, s: seq<string>): seq<string> {
    if s == [] then [x]
    else if AtMost(x, s[0]) then [x] + s
    else [s[0]] + Insert(x, s[1..])
  }

  /** Python's `sorted` on a list of names: the names in order, each as often as in
      the listing. Any sort with that result yields this very list, see SortedUnique. */
  function SortNames(s: seq<string>): (r: seq<string>)
    ensures Sorted(r)
    ensures multiset(r) == multiset(s)
  {
    if s == [] then []
    else
      var t := SortNames(s[1..]);
      InsertSorted(s[0], t);
      InsertPermutes(s[0], t);
      assert s == [s[0]] + s[1..];
      Insert(s[0], t)
  }

  lemma {:induction false} InsertPermutes(x: string, s: seq<string>)
    ensures multiset(Insert(x, s)) == multiset(s) + multiset{x}
  {
    if s != [] && !AtMost(x, s[0]) {
      InsertPermutes(x, s[1..]);
      assert s == [s[0]] + s[1..];
    }
  }

  lemma {:induction false} InsertSorted(x: string, s: seq<string>)
    requires Sorted(s)
    ensures Sorted(Insert(x, s))
  {
    if s == [] {
    } else if AtMost(x, s[0]) {
      forall j | 0 < j < |s| ensures AtMost(x, s[j]) {
        AtMostTransitive(x, s[0], s[j]);
      }
    } else {
      BelowTotal(x, s[0]);
      var t := Insert(x, s[1..]);
      InsertSorted(x, s[1..]);
      InsertPermutes(x, s[1..]);
      forall i | 0 <= i < |t| ensures AtMost(s[0], t[i]) {
        assert t[i] in multiset(t);
        if t[i] != x {
          assert t[i] in multiset(s[1..]);
          var j :| 0 <= j < |s[1..]| && s[1..][j] == t[i];
          assert s[j + 1] == t[i];
        }
      }
    }
  }

  lemma SortNamesKeepsNames(s: seq<string>)
    ensures forall n :: n in SortNames(s) <==> n in s
  {
    forall n ensures n in SortNames(s) <==> n in s {
      assert n in SortNames(s) <==> n in multiset(SortNames(s));
      assert n in s <==> n in multiset(s);
    }
  }

  /** Two strictly ascending sequences with the same elements are the same sequence:
      the keys a loader produces are fixed by which names it keeps, not by how it sorts. */
  lemma {:induction false} AscendingUnique(a: seq<string>, b: seq<string>)
    requires StrictlyAscending(a) && StrictlyAscending(b)
    requires forall n :: n in a <==> n in b
    ensures a == b
  {
    assert a != [] ==> a[0] in b;
    assert b != [] ==> b[0] in a;
    if a != [] && b != [] {
      if a[0] != b[0] {
        assert a[0] in b && b[0] in a;
        var j :| 0 <= j < |b| && b[j] == a[0];
        var i :| 0 <= i < |a| && a[i] == b[0];
        assert Below(a[0], b[0]);
        assert Below(b[0], a[0]);
        BelowAsymmetric(a[0], b[0]);
      }
      forall n ensures n in a[1..] <==> n in b[1..] {
        if n in a[1..] {
          var i :| 0 <= i < |a[1..]| && a[1..][i] == n;
          assert Below(a[0], a[i + 1]);
          BelowIrreflexive(n);
          assert n in b && n != b[0];
        }
        if n in b[1..] {
          var i :| 0 <= i < |b[1..]| && b[1..][i] == n;
          assert Below(b[0], b[i + 1]);
          BelowIrreflexive(n);
          assert n in a && n != a[0];
        }
      }
      AscendingUnique(a[1..], b[1..]);
      assert a == [a[0]] + a[1..] && b == [b[0]] + b[1..];
    }
  }

  /** Two sorted sequences holding the same names, each as often, are the same
      sequence: `sorted` has one answer even on a listing with repeated names. */
  lemma {:induction false} SortedUnique(a: seq<string>, b: seq<string>)
    requires Sorted(a) && Sorted(b)
    requires multiset(a) == multiset(b)
    ensures a == b
  {
    if a != [] {
      SortedHeads(a, b);
      assert a == [a[0]] + a[1..] && b == [b[0]] + b[1..];
      assert multiset(a[1..]) == multiset(a) - multiset{a[0]};
      assert multiset(b[1..]) == multiset(b) - multiset{b[0]};
      SortedTail(a);
      SortedTail(b);
      SortedUnique(a[1..], b[1..]);
    } else {
      assert |b| == |multiset(b)| == 0;
    }
  }

  /** Sorted sequences with the same names start with the same name: the least. */
  lemma SortedHeads(a: seq<string>, b: seq<string>)
    requires Sorted(a) && Sorted(b) && a != []
    requires multiset(a) == multiset(b)
    ensures b != [] && a[0] == b[0]
  {
    assert a[0] in multiset(b);
    assert b[0] in multiset(a);
    var j :| 0 <= j < |b| && b[j] == a[0];
    var i :| 0 <= i < |a| && a[i] == b[0];
    assert AtMost(b[0], a[0]) && AtMost(a[0], b[0]);
    if a[0] != b[0] {
      BelowAsymmetric(a[0], b[0]);
      assert false;
    }
  }

  lemma SortedTail(s: seq<string>)
    requires Sorted(s) && s != []
    ensures Sorted(s[1..])
  {
    forall i, j | 0 <= i < j < |s| - 1 ensures AtMost(s[1..][i], s[1..][j]) {
      assert s[1..][i] == s[i + 1] && s[1..][j] == s[j + 1];
    }
  }
}
