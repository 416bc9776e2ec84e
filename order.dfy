/** Python's ordering of `str` values and `sorted()` over them, which the engine
    uses to make every plan independent of directory-listing order. */
module Order {

  /** `a <= b` on Python strings: code point by code point, a prefix first. */
  predicate LexLe(a: string, b: string) {
    |a| == 0 || (|b| > 0 && (a[0] < b[0] || (a[0] == b[0] && LexLe(a[1..], b[1..]))))
  }

  lemma {:induction false} LexLeTotal(a: string, b: string)
    ensures LexLe(a, b) || LexLe(b, a)
  {
    if |a| > 0 && |b| > 0 && a[0] == b[0] {
      LexLeTotal(a[1..], b[1..]);
    }
  }

  lemma {:induction false} LexLeTrans(a: string, b: string, c: string)
    requires LexLe(a, b) && LexLe(b, c)
    ensures LexLe(a, c)
  {
    if |a| > 0 && a[0] == b[0] && b[0] == c[0] {
      LexLeTrans(a[1..], b[1..], c[1..]);
    }
  }

  lemma {:induction false} LexLeAntisymmetric(a: string, b: string)
    requires LexLe(a, b) && LexLe(b, a)
    ensures a == b
  {
    if |a| > 0 {
      LexLeAntisymmetric(a[1..], b[1..]);
      assert a == [a[0]] + a[1..] && b == [b[0]] + b[1..];
    }
  }

  predicate Sorted(s: seq<string>) {
    forall i, j :: 0 <= i < j < |s| ==> LexLe(s[i], s[j])
  }

  /** Inserts `x` before the first element it does not follow. */
  function Insert(x: string, s: seq<string>): (r: seq<string>)
    requires Sorted(s)
    ensures Sorted(r) && multiset(r) == multiset(s) + multiset{x}
  {
    if |s| == 0 then [x]
    else if LexLe(x, s[0]) then
      InsertFront(x, s);
      [x] + s
    else
      var t := Insert(x, s[1..]);
      InsertBehind(x, s, t);
      [s[0]] + t
  }

  lemma InsertFront(x: string, s: seq<string>)
    requires Sorted(s) && |s| > 0 && LexLe(x, s[0])
    ensures Sorted([x] + s) && multiset([x] + s) == multiset(s) + multiset{x}
  {
    forall j | 0 <= j < |s| ensures LexLe(x, s[j]) {
      if j > 0 { LexLeTrans(x, s[0], s[j]); }
    }
  }

  lemma InsertBehind(x: string, s: seq<string>, t: seq<string>)
    requires Sorted(s) && |s| > 0 && !LexLe(x, s[0])
    requires Sorted(t) && multiset(t) == multiset(s[1..]) + multiset{x}
    ensures Sorted([s[0]] + t) && multiset([s[0]] + t) == multiset(s) + multiset{x}
  {
    LexLeTotal(x, s[0]);
    assert s == [s[0]] + s[1..];
    forall j | 0 <= j < |t| ensures LexLe(s[0], t[j]) {
      assert t[j] in multiset(t);
      assert t[j] == x || t[j] in multiset(s[1..]);
      if t[j] != x {
        var k :| 1 <= k < |s| && s[k] == t[j];
      }
    }
  }

  /** Python's `sorted()` on strings: an ordered permutation of the input. */
  function SortStrings(s: seq<string>): (r: seq<string>)
    ensures Sorted(r) && multiset(r) == multiset(s)
  {
    if |s| == 0 then []
    else
      assert s == [s[0]] + s[1..];
      Insert(s[0], SortStrings(s[1..]))
  }

  /** `sorted(d.keys())`: the keys of a dictionary, each once, in order. */
  method SortedKeys(keys: set<string>) returns (ks: seq<string>)
    ensures Sorted(ks) && |ks| == |keys|
    ensures forall k :: k in keys <==> k in ks
    ensures forall i, j :: 0 <= i < j < |ks| ==> ks[i] != ks[j]
  {
    var listed: seq<string> := [];
    var rest := keys;
    while rest != {}
      invariant rest <= keys
      invariant forall k :: k in keys <==> k in rest || k in listed
      invariant forall k :: k in listed ==> k !in rest
      invariant forall i, j :: 0 <= i < j < |listed| ==> listed[i] != listed[j]
      invariant |listed| + |rest| == |keys|
      decreases rest
    {
      var k :| k in rest;
      listed := listed + [k];
      rest := rest - {k};
    }
    ks := SortStrings(listed);
    assert forall k :: k in ks <==> k in listed by {
      forall k ensures k in ks <==> k in listed {
        assert k in ks <==> k in multiset(ks);
        assert k in listed <==> k in multiset(listed);
      }
    }
    DistinctPreserved(listed, ks);
  }

  /** A permutation of a list without repeats has no repeats. */
  lemma DistinctPreserved(a: seq<string>, b: seq<string>)
    requires multiset(a) == multiset(b)
    requires forall i, j :: 0 <= i < j < |a| ==> a[i] != a[j]
    ensures forall i, j :: 0 <= i < j < |b| ==> b[i] != b[j]
  {
    forall x ensures multiset(a)[x] <= 1 {
      CountAtMostOne(a, x);
    }
    forall i, j | 0 <= i < j < |b| ensures b[i] != b[j] {
      EqualPairCounted(b, i, j);
      assert multiset(b)[b[i]] <= 1;
    }
  }

  lemma EqualPairCounted(b: seq<string>, i: nat, j: nat)
    requires i < j < |b|
    ensures b[i] == b[j] ==> multiset(b)[b[i]] >= 2
  {
    assert b == b[..i] + [b[i]] + b[i + 1..j] + [b[j]] + b[j + 1..];
  }

  lemma CountAtMostOne(a: seq<string>, x: string)
    requires forall i, j :: 0 <= i < j < |a| ==> a[i] != a[j]
    ensures multiset(a)[x] <= 1
  {
    if |a| > 0 {
      assert a == [a[0]] + a[1..];
      CountAtMostOne(a[1..], x);
      if a[0] == x {
        assert x !in a[1..];
      }
    }
  }

  /** No element occurs twice. */
  predicate Distinct(s: seq<string>) {
    forall i, j :: 0 <= i < j < |s| ==> s[i] != s[j]
  }

  /** `sorted(keys)` as a value: the keys of a dictionary in order, each once. */
  ghost function SortedKeysOf(keys: set<string>): (ks: seq<string>)
    ensures Sorted(ks) && Distinct(ks) && forall k :: k in keys <==> k in ks
  {
    SortedListingExists(keys);
    var ks :| Sorted(ks) && Distinct(ks) && forall k :: k in keys <==> k in ks;
    ks
  }

  lemma SortedListingExists(keys: set<string>)
    ensures exists ks :: Sorted(ks) && Distinct(ks) && forall k :: k in keys <==> k in ks
    decreases |keys|
  {
    if keys == {} {
      assert Sorted([]) && Distinct([]);
    } else {
      var x :| x in keys;
      SortedListingExists(keys - {x});
      var rest :| Sorted(rest) && Distinct(rest) && forall k :: k in keys - {x} <==> k in rest;
      var ks := Insert(x, rest);
      assert Distinct(rest + [x]) by {
        forall i, j | 0 <= i < j < |rest + [x]| ensures (rest + [x])[i] != (rest + [x])[j] {
          if j == |rest| { assert (rest + [x])[i] == rest[i]; }
        }
      }
      assert multiset(rest + [x]) == multiset(ks);
      DistinctPreserved(rest + [x], ks);
      forall k ensures k in keys <==> k in ks {
        assert k in ks <==> k in multiset(ks);
        assert k in rest + [x] <==> k in multiset(rest + [x]);
      }
    }
  }

  lemma LexLeReflexive(a: string)
    ensures LexLe(a, a)
  {
    LexLeTotal(a, a);
  }

  /** Two ordered listings without repeats of the same keys are equal: the
      order `sorted()` produces does not depend on where the keys came from. */
  lemma {:induction false} SortedListingUnique(a: seq<string>, b: seq<string>)
    requires Sorted(a) && Distinct(a) && Sorted(b) && Distinct(b)
    requires forall k :: k in a <==> k in b
    ensures a == b
    decreases |a|
  {
    if |a| > 0 {
      assert a[0] in b;
      var i :| 0 <= i < |b| && b[i] == a[0];
      assert b[0] in a;
      var j :| 0 <= j < |a| && a[j] == b[0];
      if j > 0 { assert LexLe(a[0], b[0]); } else { LexLeReflexive(a[0]); }
      if i > 0 { assert LexLe(b[0], a[0]); } else { LexLeReflexive(b[0]); }
      LexLeAntisymmetric(a[0], b[0]);
      forall k ensures k in a[1..] <==> k in b[1..] {
        if k in a[1..] {
          var m :| 1 <= m < |a| && a[m] == k;
          assert k != a[0];
          assert k in b;
          var n :| 0 <= n < |b| && b[n] == k;
        }
        if k in b[1..] {
          var m :| 1 <= m < |b| && b[m] == k;
          assert k != b[0];
          assert k in a;
          var n :| 0 <= n < |a| && a[n] == k;
        }
      }
      SortedListingUnique(a[1..], b[1..]);
      assert a == [a[0]] + a[1..] && b == [b[0]] + b[1..];
    }
  }
}
