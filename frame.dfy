/** The tables that flow between the stages of the COVID pipeline, and the
    generic facts about sequences that the stages rely on.

    A table is a sequence of rows in row order. A null cell is `None`. */
module Frame {

  datatype Option<+T> = None | Some(value: T)

  /** The (location, date) key of a record. When pandas looks for repeated
      keys it treats two nulls as equal, and so does `==` on Option. */
  type RecordKey = (Option<string>, Option<int>)

  /** One row of the upstream feed, after its `country` column was renamed to
      `location`. Any cell may be null. Dates are day numbers. `others` stands
      for the feed's remaining columns, which no stage reads and the cleaning
      stage drops. */
  datatype RawRow = RawRow(
    location: Option<string>,
    date: Option<int>,
    population: Option<int>,
    newCases: Option<int>,
    peopleVaccinated: Option<int>,
    others: seq<Option<real>>)
  {
    function Key(): RecordKey { (location, date) }
  }

  /** A row of the cleaned table: exactly the five columns location, date,
      new_cases, people_vaccinated and population, in that order. */
  datatype CleanRow = CleanRow(
    location: Option<string>,
    date: Option<int>,
    newCases: Option<int>,
    peopleVaccinated: Option<int>,
    population: Option<int>)
  {
    function Key(): RecordKey { (location, date) }
  }

  function Min(a: int, b: int): int { if a <= b then a else b }

  // ---------------------------------------------------------------------
  // Boolean masks

  /** The number of true entries of a mask. */
  function CountTrue(m: seq<bool>): (c: nat)
    ensures c <= |m|
    ensures c == 0 <==> forall i :: 0 <= i < |m| ==> !m[i]
  {
    if m == [] then 0 else CountTrue(m[..|m| - 1]) + (if m[|m| - 1] then 1 else 0)
  }

  /** Whether a mask has a true entry. */
  predicate AnyTrue(m: seq<bool>)
  {
    exists i :: 0 <= i < |m| && m[i]
  }

  ghost function TrueIndices(m: seq<bool>): set<int>
  {
    set i | 0 <= i < |m| && m[i]
  }

  /** The sum of a mask is the number of positions where it holds. */
  lemma {:induction false} CountTrueIsCardinality(m: seq<bool>)
    ensures CountTrue(m) == |TrueIndices(m)|
  {
    if m != [] {
      var pre := m[..|m| - 1];
      CountTrueIsCardinality(pre);
      if m[|m| - 1] {
        assert TrueIndices(m) == TrueIndices(pre) + {|m| - 1};
      } else {
        assert TrueIndices(m) == TrueIndices(pre);
      }
    }
  }

  // ---------------------------------------------------------------------
  // Order-preserving subsequences

  /** `a` is `b` with some rows left out and the rest kept in order. */
  predicate IsSubseq<T(==)>(a: seq<T>, b: seq<T>)
    decreases |b|
  {
    if a == [] then true
    else if b == [] then false
    else if a[|a| - 1] == b[|b| - 1] then IsSubseq(a[..|a| - 1], b[..|b| - 1])
    else IsSubseq(a, b[..|b| - 1])
  }

  lemma {:induction false} SubseqExtend<T>(a: seq<T>, b: seq<T>, x: T)
    requires IsSubseq(a, b)
    ensures IsSubseq(a, b + [x])
    decreases |b|, 1
  {
    assert (b + [x])[..|b|] == b;
    if a != [] && a[|a| - 1] == x {
      SubseqDropLast(a, b);
    }
  }

  lemma {:induction false} SubseqDropLast<T>(a: seq<T>, b: seq<T>)
    requires a != [] && IsSubseq(a, b)
    ensures IsSubseq(a[..|a| - 1], b)
    decreases |b|, 0
  {
    var b' := b[..|b| - 1];
    assert b' + [b[|b| - 1]] == b;
    if a[|a| - 1] == b[|b| - 1] {
      SubseqExtend(a[..|a| - 1], b', b[|b| - 1]);
    } else {
      SubseqDropLast(a, b');
      SubseqExtend(a[..|a| - 1], b', b[|b| - 1]);
    }
  }

  lemma SubseqAppendBoth<T>(a: seq<T>, b: seq<T>, x: T)
    requires IsSubseq(a, b)
    ensures IsSubseq(a + [x], b + [x])
  {
    assert (a + [x])[..|a|] == a;
    assert (b + [x])[..|b|] == b;
  }

  lemma {:induction false} SubseqTransitive<T>(a: seq<T>, b: seq<T>, c: seq<T>)
    requires IsSubseq(a, b) && IsSubseq(b, c)
    ensures IsSubseq(a, c)
    decreases |c|
  {
    if a != [] {
      var c', z := c[..|c| - 1], c[|c| - 1];
      assert c' + [z] == c;
      if b[|b| - 1] == z {
        if a[|a| - 1] == z {
          SubseqTransitive(a[..|a| - 1], b[..|b| - 1], c');
        } else {
          SubseqTransitive(a, b[..|b| - 1], c');
          SubseqExtend(a, c', z);
        }
      } else {
        SubseqTransitive(a, b, c');
        SubseqExtend(a, c', z);
      }
    }
  }

  lemma {:induction false} SubseqLength<T>(a: seq<T>, b: seq<T>)
    requires IsSubseq(a, b)
    ensures |a| <= |b|
    decreases |b|
  {
    if a != [] {
      if a[|a| - 1] == b[|b| - 1] {
        SubseqLength(a[..|a| - 1], b[..|b| - 1]);
      } else {
        SubseqLength(a, b[..|b| - 1]);
      }
    }
  }

  lemma {:induction false} SubseqMembers<T>(a: seq<T>, b: seq<T>)
    requires IsSubseq(a, b)
    ensures forall x :: x in a ==> x in b
    decreases |b|
  {
    if a != [] {
      var b' := b[..|b| - 1];
      assert b == b' + [b[|b| - 1]];
      if a[|a| - 1] == b[|b| - 1] {
        var a' := a[..|a| - 1];
        assert a == a' + [a[|a| - 1]];
        SubseqMembers(a', b');
      } else {
        SubseqMembers(a, b');
      }
    }
  }

  // ---------------------------------------------------------------------
  // Row filters

  /** The rows of `s` that satisfy `p`, in their original order. */
  function Filter<T(==,!new)>(p: T -> bool, s: seq<T>): (r: seq<T>)
    ensures forall k :: 0 <= k < |r| ==> p(r[k])
    ensures forall x :: x in r <==> x in s && p(x)
  {
    if s == [] then []
    else
      var pre, last := s[..|s| - 1], s[|s| - 1];
      assert s == pre + [last];
      var rest := Filter(p, pre);
      if p(last) then rest + [last] else rest
  }

  /** Filtering keeps the surviving rows in their original order. */
  lemma {:induction false} FilterIsSubseq<T(!new)>(p: T -> bool, s: seq<T>)
    ensures IsSubseq(Filter(p, s), s)
  {
    if s != [] {
      var pre, last := s[..|s| - 1], s[|s| - 1];
      assert s == pre + [last];
      var rest := Filter(p, pre);
      FilterIsSubseq(p, pre);
      if p(last) {
        assert (rest + [last])[..|rest|] == rest;
      } else {
        SubseqExtend(rest, pre, last);
      }
    }
  }

  /** The positions of the rows of `s` that satisfy `p`. */
  ghost function Positions<T>(p: T -> bool, s: seq<T>): set<int>
  {
    set i | 0 <= i < |s| && p(s[i])
  }

  /** Extending a sequence adds its last position when that row satisfies `p`. */
  lemma PositionsSnoc<T>(p: T -> bool, s: seq<T>)
    requires s != []
    ensures Positions(p, s) == Positions(p, s[..|s| - 1]) + (if p(s[|s| - 1]) then {|s| - 1} else {})
  {
    var pre := s[..|s| - 1];
    forall i | i in Positions(p, s) && i < |pre| ensures i in Positions(p, pre) {
      assert s[i] == pre[i];
    }
    forall i | i in Positions(p, pre) ensures i in Positions(p, s) {
      assert s[i] == pre[i];
    }
  }

  /** A filtered table has as many rows as there are rows satisfying the filter. */
  lemma {:induction false} FilterLength<T(!new)>(p: T -> bool, s: seq<T>)
    ensures |Filter(p, s)| == |Positions(p, s)|
  {
    if s != [] {
      var pre := s[..|s| - 1];
      FilterLength(p, pre);
      PositionsSnoc(p, s);
      assert |s| - 1 !in Positions(p, pre);
    }
  }

  lemma FilterSnoc<T(!new)>(p: T -> bool, s: seq<T>, x: T)
    ensures Filter(p, s + [x]) == Filter(p, s) + (if p(x) then [x] else [])
  {
    assert (s + [x])[..|s|] == s;
  }
}
