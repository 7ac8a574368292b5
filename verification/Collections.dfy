/** Sequences without repetition, arbitrary enumerations of sets, and the id order used by `sorted`. */
module Collections {

  datatype Option<+T> = None | Some(value: T)

  ghost predicate NoDup<T>(s: seq<T>) {
    forall i, j :: 0 <= i < j < |s| ==> s[i] != s[j]
  }

  function ToSet<T>(s: seq<T>): (r: set<T>)
  {
    set x | x in s
  }

  lemma ToSetAppend<T>(s: seq<T>, x: T)
    ensures ToSet(s + [x]) == ToSet(s) + {x}
  {
    forall y ensures y in s + [x] <==> y in s || y == x {
      if y in s {
        var i :| 0 <= i < |s| && s[i] == y;
        assert (s + [x])[i] == y;
      } else if y == x {
        assert (s + [x])[|s|] == x;
      }
    }
  }

  lemma NoDupAppend<T>(s: seq<T>, x: T)
    requires NoDup(s) && x !in s
    ensures NoDup(s + [x])
  {
  }

  lemma DisjointConcat<T>(a: seq<T>, b: seq<T>)
    requires NoDup(a) && NoDup(b) && forall x :: x in a ==> x !in b
    ensures NoDup(a + b) && ToSet(a + b) == ToSet(a) + ToSet(b)
  {
    forall i, j | 0 <= i < j < |a + b| ensures (a + b)[i] != (a + b)[j] {
      if i < |a| <= j {
        assert a[i] in a && b[j - |a|] in b;
      }
    }
  }

  /** What one more element adds to the set of a prefix. */
  lemma PrefixGrows<T>(s: seq<T>, k: nat)
    requires NoDup(s) && k < |s|
    ensures s[k] in ToSet(s) && s[k] !in ToSet(s[..k]) && ToSet(s[..k + 1]) == ToSet(s[..k]) + {s[k]}
  {
    assert s[..k + 1] == s[..k] + [s[k]];
    ToSetAppend(s[..k], s[k]);
  }

  lemma CardSubset<T>(a: set<T>, b: set<T>)
    requires a <= b
    ensures |a| <= |b|
    ensures |a| == |b| ==> a == b
  {
    assert b == a + (b - a);
  }

  /** More positions than values: two positions agree. */
  lemma Pigeonhole<T>(s: seq<T>, S: set<T>) returns (i: nat, j: nat)
    requires ToSet(s) <= S && |s| > |S|
    ensures i < j < |s| && s[i] == s[j]
  {
    CardIffNoDup(s);
    CardSubset(ToSet(s), S);
    i, j :| 0 <= i < j < |s| && s[i] == s[j];
  }

  /** The rows of a query whose statement fixes no order: any enumeration of the set. */
  method Enumerate<T(==)>(S: set<T>) returns (s: seq<T>)
    ensures NoDup(s) && ToSet(s) == S
  {
    s := [];
    var rest := S;
    while rest != {}
      invariant NoDup(s) && ToSet(s) !! rest && ToSet(s) + rest == S
      decreases |rest|
    {
      var x :| x in rest;
      assert ToSet(s + [x]) == ToSet(s) + {x};
      s, rest := s + [x], rest - {x};
    }
  }

  // ---- ids, ordered character by character, a proper prefix first ----

  datatype Id = Id(text: string)

  predicate Less(a: Id, b: Id) {
    TextLess(a.text, b.text)
  }

  predicate TextLess(a: string, b: string) {
    if b == "" then false
    else if a == "" then true
    else a[0] < b[0] || (a[0] == b[0] && TextLess(a[1..], b[1..]))
  }

  /** Up to some place the texts agree; there the first ends, or has the smaller character. */
  ghost predicate FirstDiffer(a: string, b: string, k: nat) {
    && k <= |a| && k < |b|
    && (forall i :: 0 <= i < k ==> a[i] == b[i])
    && (k < |a| ==> a[k] < b[k])
  }

  lemma {:induction false} TextLessIs(a: string, b: string)
    ensures TextLess(a, b) <==> exists k: nat :: FirstDiffer(a, b, k)
  {
    if a != "" && b != "" {
      TextLessIs(a[1..], b[1..]);
      if TextLess(a, b) && a[0] == b[0] {
        var k: nat :| FirstDiffer(a[1..], b[1..], k);
        assert forall i :: 0 < i <= k ==> a[i] == a[1..][i - 1] && b[i] == b[1..][i - 1];
        assert FirstDiffer(a, b, k + 1);
      } else if TextLess(a, b) {
        assert FirstDiffer(a, b, 0);
      }
      if k: nat :| FirstDiffer(a, b, k) {
        if k > 0 {
          assert FirstDiffer(a[1..], b[1..], k - 1);
        }
      }
    } else if b != "" {
      assert FirstDiffer(a, b, 0);
    }
  }

  lemma LessTotal(a: Id, b: Id)
    ensures Less(a, b) || a == b || Less(b, a)
    ensures !(Less(a, b) && Less(b, a))
    ensures a == b ==> !Less(a, b)
  {
    TextLessTotal(a.text, b.text);
  }

  lemma LessTrans(a: Id, b: Id, c: Id)
    requires Less(a, b) && Less(b, c)
    ensures Less(a, c)
  {
    TextLessTrans(a.text, b.text, c.text);
  }

  lemma {:induction false} TextLessTotal(a: string, b: string)
    ensures TextLess(a, b) || a == b || TextLess(b, a)
    ensures !(TextLess(a, b) && TextLess(b, a))
    ensures a == b ==> !TextLess(a, b)
  {
    if a != "" && b != "" {
      TextLessTotal(a[1..], b[1..]);
      if a[0] == b[0] && a[1..] == b[1..] {
        assert a == [a[0]] + a[1..] == [b[0]] + b[1..] == b;
      }
    }
  }

  lemma {:induction false} TextLessTrans(a: string, b: string, c: string)
    requires TextLess(a, b) && TextLess(b, c)
    ensures TextLess(a, c)
  {
    if a != "" && b != "" && c != "" && a[0] == b[0] == c[0] {
      TextLessTrans(a[1..], b[1..], c[1..]);
    }
  }

  predicate AtMost(a: Id, b: Id) {
    a == b || Less(a, b)
  }

  ghost predicate Ascending(s: seq<Id>) {
    forall i, j {:trigger AtMost(s[i], s[j])} :: 0 <= i < j < |s| ==> AtMost(s[i], s[j])
  }

  function Insert(x: Id, s: seq<Id>): (r: seq<Id>)
    ensures multiset(r) == multiset(s) + multiset{x}
  {
    if s == [] then [x]
    else if AtMost(x, s[0]) then [x] + s
    else
      assert s == [s[0]] + s[1..];
      [s[0]] + Insert(x, s[1..])
  }

  lemma {:induction false} InsertAscending(x: Id, s: seq<Id>)
    requires Ascending(s)
    ensures Ascending(Insert(x, s))
  {
    if s != [] {
      var r := Insert(x, s);
      if AtMost(x, s[0]) {
        forall i, j | 0 <= i < j < |r| ensures AtMost(r[i], r[j]) {
          assert i > 0 ==> AtMost(s[i - 1], s[j - 1]);
          assert j > 1 ==> AtMost(s[0], s[j - 1]);
          if i == 0 && j > 1 && x != s[0] && s[0] != s[j - 1] {
            LessTrans(x, s[0], s[j - 1]);
          }
        }
      } else {
        LessTotal(x, s[0]);
        forall i, j | 0 <= i < j < |s| - 1 ensures AtMost(s[1..][i], s[1..][j]) {
          assert AtMost(s[i + 1], s[j + 1]);
        }
        InsertAscending(x, s[1..]);
        var t := Insert(x, s[1..]);
        assert r == [s[0]] + t;
        forall j | 0 <= j < |t| ensures AtMost(s[0], t[j]) {
          assert t[j] in multiset(t);
          if t[j] != x {
            assert t[j] in s[1..];
            var k :| 0 <= k < |s| - 1 && s[1..][k] == t[j];
            assert AtMost(s[0], s[k + 1]);
          }
        }
        forall i, j | 0 <= i < j < |r| ensures AtMost(r[i], r[j]) {
          if i > 0 {
            assert AtMost(t[i - 1], t[j - 1]);
          }
        }
      }
    }
  }

  /** `sorted(...)` */
  function Sorted(s: seq<Id>): (r: seq<Id>)
    ensures multiset(r) == multiset(s)
  {
    if s == [] then []
    else
      assert s == [s[0]] + s[1..];
      Insert(s[0], Sorted(s[1..]))
  }

  lemma {:induction false} SortedAscending(s: seq<Id>)
    ensures Ascending(Sorted(s))
    ensures ToSet(Sorted(s)) == ToSet(s)
    ensures |Sorted(s)| == |s|
    ensures NoDup(s) ==> NoDup(Sorted(s))
  {
    if s != [] {
      SortedAscending(s[1..]);
      InsertAscending(s[0], Sorted(s[1..]));
    }
    SameMultiset(s, Sorted(s));
  }

  lemma SameMultiset<T>(s: seq<T>, r: seq<T>)
    requires multiset(s) == multiset(r)
    ensures ToSet(s) == ToSet(r) && |s| == |r|
    ensures NoDup(s) ==> NoDup(r)
  {
    assert |s| == |multiset(s)| && |r| == |multiset(r)|;
    forall x ensures x in s <==> x in r {
      assert x in s <==> x in multiset(s);
      assert x in r <==> x in multiset(r);
    }
    CardIffNoDup(s);
    CardIffNoDup(r);
  }

  lemma {:induction false} CardIffNoDup<T>(s: seq<T>)
    ensures |ToSet(s)| <= |s|
    ensures NoDup(s) <==> |ToSet(s)| == |s|
  {
    if s == [] {
      assert ToSet(s) == {};
    } else {
      var rest, last := s[..|s| - 1], s[|s| - 1];
      CardIffNoDup(rest);
      assert s == rest + [last];
      ToSetAppend(rest, last);
      if last in rest {
        assert ToSet(s) == ToSet(rest);
      }
    }
  }
}
