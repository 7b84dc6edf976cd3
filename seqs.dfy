/** Sequence and string helpers shared by every other module: Python's list
    comprehensions with a filter, `str.join`, `str.split` on one character,
    counting, and the code-point order that `sorted()` uses on strings. */
module Seqs {

  lemma AppendAssoc<T>(a: seq<T>, b: seq<T>, c: seq<T>)
    ensures (a + b) + c == a + (b + c)
  {
  }

  /** The elements of `s` that satisfy `p`, in their original order. */
  function Filter<T(!new)>(s: seq<T>, p: T -> bool): (r: seq<T>)
    ensures |r| <= |s|
    ensures forall x :: x in r <==> x in s && p(x)
  {
    if s == [] then [] else (if p(s[0]) then [s[0]] else []) + Filter(s[1..], p)
  }

  /** The head of a non-empty filter is the first element that satisfies the
      predicate. */
  lemma {:induction false} FilterHead<T(!new)>(s: seq<T>, p: T -> bool)
    requires Filter(s, p) != []
    ensures exists i :: 0 <= i < |s| && Filter(s, p)[0] == s[i] && p(s[i]) && forall j :: 0 <= j < i ==> !p(s[j])
  {
    if !p(s[0]) {
      FilterHead(s[1..], p);
      var i :| 0 <= i < |s[1..]| && Filter(s[1..], p)[0] == s[1..][i] && p(s[1..][i]) && forall j :: 0 <= j < i ==> !p(s[1..][j]);
      assert Filter(s, p)[0] == s[i + 1];
      forall j | 0 <= j < i + 1 ensures !p(s[j]) {
        if j > 0 { assert s[j] == s[1..][j - 1]; }
      }
    } else {
      assert Filter(s, p)[0] == s[0];
    }
  }

  /** A filter is empty exactly when no element satisfies the predicate. */
  lemma EmptyFilter<T(!new)>(s: seq<T>, p: T -> bool)
    ensures Filter(s, p) == [] <==> forall x :: x in s ==> !p(x)
  {
    if Filter(s, p) != [] {
      assert Filter(s, p)[0] in Filter(s, p);
    }
  }

  /** Python's `any(p(x) for x in s)`, read from the last element backwards. */
  predicate AnyOf<T>(s: seq<T>, p: T -> bool)
  {
    s != [] && (AnyOf(s[..|s| - 1], p) || p(s[|s| - 1]))
  }

  lemma {:induction false} AnyOfSpec<T>(s: seq<T>, p: T -> bool)
    ensures AnyOf(s, p) <==> exists i :: 0 <= i < |s| && p(s[i])
  {
    if s != [] {
      var init := s[..|s| - 1];
      AnyOfSpec(init, p);
      assert forall i :: 0 <= i < |init| ==> init[i] == s[i];
    }
  }

  /** `a` can be obtained from `s` by deleting elements (order is kept). */
  predicate IsSubsequence<T(==)>(a: seq<T>, s: seq<T>)
  {
    if a == [] then true
    else if s == [] then false
    else if a[0] == s[0] then IsSubsequence(a[1..], s[1..])
    else IsSubsequence(a, s[1..])
  }

  lemma {:induction false} FilterIsSubsequence<T(!new)>(s: seq<T>, p: T -> bool)
    ensures IsSubsequence(Filter(s, p), s)
  {
    if s != [] {
      FilterIsSubsequence(s[1..], p);
      if p(s[0]) {
        assert Filter(s, p) == [s[0]] + Filter(s[1..], p);
      } else {
        assert Filter(s, p) == Filter(s[1..], p);
        SubsequenceOfTail(Filter(s[1..], p), s);
      }
    }
  }

  lemma {:induction false} SubsequenceOfTail<T>(a: seq<T>, s: seq<T>)
    requires s != [] && IsSubsequence(a, s[1..])
    ensures IsSubsequence(a, s)
  {
    if a != [] && a[0] == s[0] {
      // a[0] is also the first element of s: skip it on both sides.
      SubsequenceDropHead(a, s[1..]);
    }
  }

  lemma {:induction false} SubsequenceDropHead<T>(a: seq<T>, s: seq<T>)
    requires a != [] && IsSubsequence(a, s)
    ensures IsSubsequence(a[1..], s)
  {
    if a[0] == s[0] {
      if a[1..] != [] { SubsequenceOfTail(a[1..], s); }
    } else {
      SubsequenceDropHead(a, s[1..]);
      SubsequenceOfTail(a[1..], s);
    }
  }

  lemma {:induction false} FilterAppend<T(!new)>(a: seq<T>, b: seq<T>, p: T -> bool)
    ensures Filter(a + b, p) == Filter(a, p) + Filter(b, p)
  {
    if a != [] {
      assert (a + b)[1..] == a[1..] + b;
      FilterAppend(a[1..], b, p);
    } else {
      assert a + b == b;
    }
  }

  /** One more element of a prefix of `s`, filtered. */
  lemma FilterPrefix<T(!new)>(s: seq<T>, i: nat, p: T -> bool)
    requires i < |s|
    ensures Filter(s[..i + 1], p) == Filter(s[..i], p) + (if p(s[i]) then [s[i]] else [])
  {
    assert s[..i + 1] == s[..i] + [s[i]];
    FilterAppend(s[..i], [s[i]], p);
  }

  /** Filtering keeps everything when every element satisfies the predicate. */
  lemma {:induction false} FilterAll<T(!new)>(s: seq<T>, p: T -> bool)
    requires forall i :: 0 <= i < |s| ==> p(s[i])
    ensures Filter(s, p) == s
  {
    if s != [] { FilterAll(s[1..], p); }
  }

  /** `[f(x) for x in s if p(f(x))]`, built from the front of `s`. */
  function Selected<A, B>(s: seq<A>, f: A -> B, p: B -> bool): (r: seq<B>)
    ensures |r| <= |s|
  {
    if s == [] then [] else Selected(s[..|s| - 1], f, p) + (if p(f(s[|s| - 1])) then [f(s[|s| - 1])] else [])
  }

  /** Filtering by a predicate and by its negation splits a sequence into
      two parts that together hold every element exactly as often. */
  lemma {:induction false} FilterSplit<T(!new)>(s: seq<T>, p: T -> bool, q: T -> bool)
    requires forall x :: q(x) == !p(x)
    ensures multiset(Filter(s, p)) + multiset(Filter(s, q)) == multiset(s)
  {
    if s != [] {
      FilterSplit(s[1..], p, q);
      FilterSplitStep(s, p, q);
    }
  }

  lemma FilterSplitStep<T(!new)>(s: seq<T>, p: T -> bool, q: T -> bool)
    requires s != [] && q(s[0]) == !p(s[0])
    requires multiset(Filter(s[1..], p)) + multiset(Filter(s[1..], q)) == multiset(s[1..])
    ensures multiset(Filter(s, p)) + multiset(Filter(s, q)) == multiset(s)
  {
    FilterHeadMultiset(s, p);
    FilterHeadMultiset(s, q);
    HeadMultiset(s);
  }

  lemma HeadMultiset<T>(s: seq<T>)
    requires s != []
    ensures multiset(s) == multiset{s[0]} + multiset(s[1..])
  {
    assert s == [s[0]] + s[1..];
  }

  lemma FilterHeadMultiset<T(!new)>(s: seq<T>, p: T -> bool)
    requires s != []
    ensures multiset(Filter(s, p)) == (if p(s[0]) then multiset{s[0]} else multiset{}) + multiset(Filter(s[1..], p))
  {
  }



  /** The images `Selected` leaves out, in order. */
  function Refused<A, B>(s: seq<A>, f: A -> B, p: B -> bool): (r: seq<B>)
    ensures |r| <= |s|
  {
    if s == [] then [] else Refused(s[..|s| - 1], f, p) + (if p(f(s[|s| - 1])) then [] else [f(s[|s| - 1])])
  }

  lemma SelectedSnoc<A, B>(s: seq<A>, x: A, f: A -> B, p: B -> bool)
    ensures Selected(s + [x], f, p) == Selected(s, f, p) + (if p(f(x)) then [f(x)] else [])
    ensures Refused(s + [x], f, p) == Refused(s, f, p) + (if p(f(x)) then [] else [f(x)])
  {
    assert (s + [x])[..|s|] == s;
  }

  /** One more element of a prefix of `s`. */
  lemma SelectedPrefix<A, B>(s: seq<A>, i: nat, f: A -> B, p: B -> bool)
    requires i < |s|
    ensures Selected(s[..i + 1], f, p) == Selected(s[..i], f, p) + (if p(f(s[i])) then [f(s[i])] else [])
    ensures Refused(s[..i + 1], f, p) == Refused(s[..i], f, p) + (if p(f(s[i])) then [] else [f(s[i])])
  {
    assert s[..i + 1] == s[..i] + [s[i]];
    SelectedSnoc(s[..i], s[i], f, p);
  }

  /** Nothing is selected exactly when no element passes. */
  lemma {:induction false} SelectedEmpty<A, B>(s: seq<A>, f: A -> B, p: B -> bool)
    ensures Selected(s, f, p) == [] <==> forall i :: 0 <= i < |s| ==> !p(f(s[i]))
  {
    if s != [] {
      var init := s[..|s| - 1];
      SelectedEmpty(init, f, p);
      assert forall i :: 0 <= i < |init| ==> init[i] == s[i];
    }
  }

  /** Every image lands in exactly one of the two lists, and each list only
      holds images of its kind. */
  lemma {:induction false} SelectedPartition<A, B>(s: seq<A>, f: A -> B, p: B -> bool)
    ensures |Selected(s, f, p)| + |Refused(s, f, p)| == |s|
    ensures forall i :: 0 <= i < |s| && p(f(s[i])) ==> f(s[i]) in Selected(s, f, p)
    ensures forall i :: 0 <= i < |s| && !p(f(s[i])) ==> f(s[i]) in Refused(s, f, p)
    ensures forall y :: y in Selected(s, f, p) ==> p(y)
    ensures forall y :: y in Refused(s, f, p) ==> !p(y)
  {
    if s != [] {
      var init := s[..|s| - 1];
      SelectedPartition(init, f, p);
      assert forall i :: 0 <= i < |init| ==> init[i] == s[i];
    }
  }

  /** Python's `sep.join(parts)`. */
  function Join(parts: seq<string>, sep: string): string
  {
    if |parts| == 0 then "" else if |parts| == 1 then parts[0] else parts[0] + sep + Join(parts[1..], sep)
  }

  /** Python's `s.split(c)` for a one-character separator: always at least one
      part, and no part contains the separator. */
  function Split(s: string, c: char): (r: seq<string>)
    ensures |r| >= 1
    ensures forall i :: 0 <= i < |r| ==> c !in r[i]
  {
    if s == [] then [""]
    else if s[0] == c then [""] + Split(s[1..], c)
    else
      var rest := Split(s[1..], c);
      [[s[0]] + rest[0]] + rest[1..]
  }

  /** Joining the parts of a split with the separator gives back the string. */
  lemma {:induction false} JoinSplit(s: string, c: char)
    ensures Join(Split(s, c), [c]) == s
  {
    if s != [] {
      var rest := Split(s[1..], c);
      JoinSplit(s[1..], c);
      if s[0] == c {
        assert Split(s, c) == [""] + rest;
        assert Join(Split(s, c), [c]) == "" + [c] + Join(rest, [c]);
      } else {
        var r := [[s[0]] + rest[0]] + rest[1..];
        assert Split(s, c) == r;
        if |rest| == 1 {
          assert Join(r, [c]) == [s[0]] + rest[0];
        } else {
          assert r[1..] == rest[1..];
          assert Join(rest, [c]) == rest[0] + [c] + Join(rest[1..], [c]);
          assert Join(r, [c]) == [s[0]] + rest[0] + [c] + Join(rest[1..], [c]);
        }
      }
    }
  }

  /** A string without the separator splits into itself. */
  lemma {:induction false} SplitNoSeparator(s: string, c: char)
    requires c !in s
    ensures Split(s, c) == [s]
  {
    if s != [] {
      SplitNoSeparator(s[1..], c);
      assert [s[0]] + s[1..] == s;
    }
  }

  /** The first separator ends the first part. */
  lemma {:induction false} SplitAtFirst(a: string, c: char, b: string)
    requires c !in a
    ensures Split(a + [c] + b, c) == [a] + Split(b, c)
  {
    if a == [] {
      assert a + [c] + b == [c] + b;
      assert ([c] + b)[1..] == b;
    } else {
      assert (a + [c] + b)[1..] == a[1..] + [c] + b;
      SplitAtFirst(a[1..], c, b);
      assert [a[0]] + a[1..] == a;
    }
  }

  /** Number of occurrences of `x` in `s`. */
  function Count<T(==)>(s: seq<T>, x: T): nat
  {
    if s == [] then 0 else (if s[0] == x then 1 else 0) + Count(s[1..], x)
  }

  lemma {:induction false} CountAppend<T>(a: seq<T>, b: seq<T>, x: T)
    ensures Count(a + b, x) == Count(a, x) + Count(b, x)
  {
    if a == [] {
      assert a + b == b;
    } else {
      assert (a + b)[1..] == a[1..] + b;
      CountAppend(a[1..], b, x);
    }
  }

  lemma {:induction false} CountAbsent<T>(s: seq<T>, x: T)
    requires x !in s
    ensures Count(s, x) == 0
  {
    if s != [] {
      assert x !in s[1..];
      CountAbsent(s[1..], x);
    }
  }

  predicate Distinct<T(==)>(s: seq<T>)
  {
    forall i, j :: 0 <= i < j < |s| ==> s[i] != s[j]
  }

  /** In a sequence without repetitions an element occurs once or not at all. */
  lemma {:induction false} CountDistinct<T>(s: seq<T>, x: T)
    requires Distinct(s)
    ensures Count(s, x) == if x in s then 1 else 0
  {
    if s != [] {
      assert Distinct(s[1..]) by {
        forall i, j | 0 <= i < j < |s[1..]| ensures s[1..][i] != s[1..][j] {
          assert s[1..][i] == s[i + 1] && s[1..][j] == s[j + 1];
        }
      }
      CountDistinct(s[1..], x);
      if s[0] == x {
        assert x !in s[1..] by {
          forall k | 0 <= k < |s[1..]| ensures s[1..][k] != x { assert s[1..][k] == s[k + 1]; }
        }
      } else {
        assert x in s <==> x in s[1..] by {
          if x in s {
            var k :| 0 <= k < |s| && s[k] == x;
            assert s[1..][k - 1] == x;
          }
        }
      }
    }
  }

  /** Python's `<` on strings: code-point order, a proper prefix sorts first. */
  predicate LexLt(a: string, b: string)
  {
    if a == [] then b != []
    else if b == [] then false
    else if a[0] != b[0] then a[0] < b[0]
    else LexLt(a[1..], b[1..])
  }

  lemma {:induction false} LexLtIrreflexive(a: string)
    ensures !LexLt(a, a)
  {
    if a != [] { LexLtIrreflexive(a[1..]); }
  }

  lemma {:induction false} LexLtTransitive(a: string, b: string, c: string)
    requires LexLt(a, b) && LexLt(b, c)
    ensures LexLt(a, c)
  {
    if a != [] && b != [] && c != [] && a[0] == b[0] && b[0] == c[0] {
      LexLtTransitive(a[1..], b[1..], c[1..]);
    }
  }

  lemma {:induction false} LexLtTotal(a: string, b: string)
    requires a != b
    ensures LexLt(a, b) || LexLt(b, a)
  {
    if a != [] && b != [] && a[0] == b[0] {
      LexLtTotal(a[1..], b[1..]);
    }
  }

  lemma LexLtAsymmetric(a: string, b: string)
    requires LexLt(a, b)
    ensures !LexLt(b, a)
  {
    if LexLt(b, a) {
      LexLtTransitive(a, b, a);
      LexLtIrreflexive(a);
    }
  }

  predicate IsLeast(m: string, s: set<string>)
  {
    m in s && forall x :: x in s && x != m ==> LexLt(m, x)
  }

  /** Every non-empty finite set of strings has a least element. */
  lemma {:induction false} LeastExists(s: set<string>)
    requires s != {}
    ensures exists m :: IsLeast(m, s)
    decreases |s|
  {
    var x :| x in s;
    if s == {x} {
      assert IsLeast(x, s);
    } else {
      LeastExists(s - {x});
      var m :| IsLeast(m, s - {x});
      if LexLt(m, x) {
        assert IsLeast(m, s);
      } else {
        LexLtTotal(m, x);
        forall y | y in s && y != x ensures LexLt(x, y) {
          if y != m { LexLtTransitive(x, m, y); }
        }
        assert IsLeast(x, s);
      }
    }
  }

  lemma LeastUnique(s: set<string>)
    ensures forall m1, m2 :: IsLeast(m1, s) && IsLeast(m2, s) ==> m1 == m2
  {
    forall m1, m2 | IsLeast(m1, s) && IsLeast(m2, s) ensures m1 == m2 {
      if m1 != m2 { LexLtAsymmetric(m1, m2); }
    }
  }

  predicate StrictlySorted(r: seq<string>)
  {
    forall i, j :: 0 <= i < j < |r| ==> LexLt(r[i], r[j])
  }

  /** Python's `sorted(s)` for a set of strings. */
  function SortedNames(s: set<string>): (r: seq<string>)
    ensures |r| == |s|
    ensures forall x :: x in r <==> x in s
    ensures StrictlySorted(r)
    decreases |s|
  {
    if s == {} then []
    else
      LeastExists(s);
      LeastUnique(s);
      var m :| IsLeast(m, s);
      var rest := SortedNames(s - {m});
      assert forall j :: 0 <= j < |rest| ==> LexLt(m, rest[j]) by {
        forall j | 0 <= j < |rest| ensures LexLt(m, rest[j]) { assert rest[j] in s - {m}; }
      }
      [m] + rest
  }
}
