/** The cleaning stage (`datos_procesados`): from the raw feed to the table the
    metrics are computed on. In this order it drops the rows with a null
    new_cases or people_vaccinated, drops repeated (location, date) keys
    keeping the first, keeps the two countries of the study and projects to
    five columns. */
module Cleaning {
  import opened Frame

  const SubjectCountry: string := "Ecuador"
  const ComparisonCountry: string := "Colombia"

  /** The countries the location filter keeps. */
  const KeptCountries: seq<string> := [SubjectCountry, ComparisonCountry]

  /** The row has both new_cases and people_vaccinated, so the null-count filter keeps it. */
  predicate HasCounts(r: RawRow)
  {
    r.newCases.Some? && r.peopleVaccinated.Some?
  }

  /** The row's location is one of the kept countries; a null location is not. */
  predicate InKeptCountries(r: RawRow)
  {
    r.location.Some? && r.location.value in KeptCountries
  }

  predicate KeyIn(key: RecordKey, df: seq<RawRow>)
  {
    exists j :: 0 <= j < |df| && df[j].Key() == key
  }

  predicate DistinctKeys(df: seq<RawRow>)
  {
    forall i, j :: 0 <= i < j < |df| ==> df[i].Key() != df[j].Key()
  }

  /** Step 1, drops the rows with a null new_cases or people_vaccinated. */
  function DropNullCounts(df: seq<RawRow>): (r: seq<RawRow>)
    ensures forall x :: x in r <==> x in df && HasCounts(x)
  {
    Filter(HasCounts, df)
  }

  /** Step 2, deduplication on (location, date) keeping the first row: a row
      goes when an earlier row has its key. */
  function DropDuplicateKeys(df: seq<RawRow>): (r: seq<RawRow>)
    ensures forall x :: x in r ==> x in df
    ensures forall key :: KeyIn(key, r) <==> KeyIn(key, df)
    ensures DistinctKeys(r)
  {
    if df == [] then []
    else
      var pre, last := df[..|df| - 1], df[|df| - 1];
      assert df == pre + [last];
      var kept := DropDuplicateKeys(pre);
      if KeyIn(last.Key(), pre) then
        assert forall key :: KeyIn(key, df) ==> KeyIn(key, pre);
        kept
      else
        var r := kept + [last];
        assert forall key :: KeyIn(key, r) <==> KeyIn(key, kept) || key == last.Key() by {
          forall key ensures KeyIn(key, r) <==> KeyIn(key, kept) || key == last.Key() {
            if KeyIn(key, kept) {
              var j :| 0 <= j < |kept| && kept[j].Key() == key;
              assert r[j] == kept[j];
            }
            if key == last.Key() {
              assert r[|r| - 1] == last;
            }
            if KeyIn(key, r) {
              var j :| 0 <= j < |r| && r[j].Key() == key;
              if j < |kept| { assert kept[j] == r[j]; }
            }
          }
        }
        r
  }

  lemma {:induction false} DropDuplicateKeysIsSubseq(df: seq<RawRow>)
    ensures IsSubseq(DropDuplicateKeys(df), df)
  {
    if df != [] {
      var pre, last := df[..|df| - 1], df[|df| - 1];
      assert df == pre + [last];
      var kept := DropDuplicateKeys(pre);
      DropDuplicateKeysIsSubseq(pre);
      if KeyIn(last.Key(), pre) {
        SubseqExtend(kept, pre, last);
      } else {
        assert (kept + [last])[..|kept|] == kept;
      }
    }
  }

  /** Step 3, keeps the rows of Ecuador and Colombia. */
  function KeepCountries(df: seq<RawRow>): (r: seq<RawRow>)
    ensures forall x :: x in r <==> x in df && InKeptCountries(x)
  {
    Filter(InKeptCountries, df)
  }

  /** Step 4, keeping the five columns the metrics use. */
  function Project(r: RawRow): CleanRow
  {
    CleanRow(r.location, r.date, r.newCases, r.peopleVaccinated, r.population)
  }

  function ProjectAll(df: seq<RawRow>): seq<CleanRow>
  {
    seq(|df|, i requires 0 <= i < |df| => Project(df[i]))
  }

  /** The raw rows that survive steps 1 to 3, still with all their columns. */
  function SelectedRows(raw: seq<RawRow>): seq<RawRow>
  {
    KeepCountries(DropDuplicateKeys(DropNullCounts(raw)))
  }

  /** A subsequence of a table with distinct keys has distinct keys. */
  lemma {:induction false} SubseqKeepsDistinctKeys(a: seq<RawRow>, b: seq<RawRow>)
    requires IsSubseq(a, b) && DistinctKeys(b)
    ensures DistinctKeys(a)
    decreases |b|
  {
    if a != [] {
      var b' := b[..|b| - 1];
      assert DistinctKeys(b');
      if a[|a| - 1] == b[|b| - 1] {
        var a' := a[..|a| - 1];
        SubseqKeepsDistinctKeys(a', b');
        SubseqMembers(a', b');
        forall i | 0 <= i < |a'| ensures a'[i].Key() != a[|a| - 1].Key() {
          assert a'[i] in b';
          var j :| 0 <= j < |b'| && b'[j] == a'[i];
          assert b[j] == a'[i];
        }
        assert a == a' + [a[|a| - 1]];
      } else {
        SubseqKeepsDistinctKeys(a, b');
      }
    }
  }

  /** The cleaned table. Whatever the feed, it holds no null new_cases or
      people_vaccinated, only the two kept countries, and no repeated
      (location, date) key. */
  function Clean(raw: seq<RawRow>): (c: seq<CleanRow>)
    ensures |c| == |SelectedRows(raw)|
    ensures forall i :: 0 <= i < |c| ==> c[i].newCases.Some? && c[i].peopleVaccinated.Some?
    ensures forall i :: 0 <= i < |c| ==> c[i].location.Some? && c[i].location.value in KeptCountries
    ensures forall i, j :: 0 <= i < j < |c| ==> c[i].Key() != c[j].Key()
  {
    var deduped := DropDuplicateKeys(DropNullCounts(raw));
    var selected := KeepCountries(deduped);
    FilterIsSubseq(InKeptCountries, deduped);
    SubseqKeepsDistinctKeys(selected, deduped);
    SubseqMembers(selected, deduped);
    assert forall i :: 0 <= i < |selected| ==> HasCounts(selected[i]) by {
      forall i | 0 <= i < |selected| ensures HasCounts(selected[i]) {
        assert selected[i] in deduped;
      }
    }
    var c := ProjectAll(selected);
    assert forall i :: 0 <= i < |c| ==> c[i].Key() == selected[i].Key();
    c
  }

  /** The cleaned rows are the selected raw rows, in the feed's order. */
  lemma CleanIsOrderedSubsequence(raw: seq<RawRow>)
    ensures IsSubseq(SelectedRows(raw), raw)
    ensures Clean(raw) == ProjectAll(SelectedRows(raw))
  {
    var complete := DropNullCounts(raw);
    var deduped := DropDuplicateKeys(complete);
    FilterIsSubseq(HasCounts, raw);
    DropDuplicateKeysIsSubseq(complete);
    FilterIsSubseq(InKeptCountries, deduped);
    SubseqTransitive(deduped, complete, raw);
    SubseqTransitive(SelectedRows(raw), deduped, raw);
  }

  // ---------------------------------------------------------------------
  // Which row of the feed survives, stated row by row

  /** Row `i` survives cleaning: it has both counts, its location is kept,
      and no EARLIER row that has both counts shares its key. A row with a
      null count never shadows a later complete row of the same key, because
      nulls are dropped before duplicates are. */
  predicate Survives(raw: seq<RawRow>, i: int)
    requires 0 <= i < |raw|
  {
    && HasCounts(raw[i])
    && InKeptCountries(raw[i])
    && forall j :: 0 <= j < i && HasCounts(raw[j]) ==> raw[j].Key() != raw[i].Key()
  }

  /** The surviving rows in feed order. */
  function SurvivingRows(raw: seq<RawRow>): seq<RawRow>
  {
    if raw == [] then []
    else SurvivingRows(raw[..|raw| - 1]) + (if Survives(raw, |raw| - 1) then [raw[|raw| - 1]] else [])
  }

  lemma KeyInCompleteRows(pre: seq<RawRow>, key: RecordKey)
    ensures KeyIn(key, DropNullCounts(pre)) <==>
      exists j :: 0 <= j < |pre| && HasCounts(pre[j]) && pre[j].Key() == key
  {
    var complete := DropNullCounts(pre);
    if KeyIn(key, complete) {
      var k :| 0 <= k < |complete| && complete[k].Key() == key;
      assert complete[k] in pre;
      var j :| 0 <= j < |pre| && pre[j] == complete[k];
    }
    if exists j :: 0 <= j < |pre| && HasCounts(pre[j]) && pre[j].Key() == key {
      var j :| 0 <= j < |pre| && HasCounts(pre[j]) && pre[j].Key() == key;
      assert pre[j] in complete;
      var k :| 0 <= k < |complete| && complete[k] == pre[j];
    }
  }

  /** The staged cleaning keeps exactly the surviving rows. */
  lemma {:induction false} CleaningKeepsFirstCompleteRowPerKey(raw: seq<RawRow>)
    ensures SelectedRows(raw) == SurvivingRows(raw)
  {
    if raw != [] {
      var pre, x := raw[..|raw| - 1], raw[|raw| - 1];
      assert raw == pre + [x];
      CleaningKeepsFirstCompleteRowPerKey(pre);
      FilterSnoc(HasCounts, pre, x);
      var complete := DropNullCounts(pre);
      if HasCounts(x) {
        assert DropNullCounts(raw) == complete + [x];
        assert (complete + [x])[..|complete|] == complete;
        KeyInCompleteRows(pre, x.Key());
        var deduped := DropDuplicateKeys(complete);
        if KeyIn(x.Key(), complete) {
          assert DropDuplicateKeys(complete + [x]) == deduped;
          assert !Survives(raw, |raw| - 1);
        } else {
          assert DropDuplicateKeys(complete + [x]) == deduped + [x];
          FilterSnoc(InKeptCountries, deduped, x);
          assert Survives(raw, |raw| - 1) <==> InKeptCountries(x);
        }
      }
    }
  }

  /** A row with a null count does not shadow a later complete row with the
      same key: the complete row is the one kept. */
  lemma NullRowDoesNotShadowCompleteRow(a: RawRow, b: RawRow)
    requires a.Key() == b.Key()
    requires a.newCases.None?
    requires HasCounts(b) && InKeptCountries(b)
    ensures Clean([a, b]) == [Project(b)]
  {
    var raw := [a, b];
    CleaningKeepsFirstCompleteRowPerKey(raw);
    assert raw[..1] == [a];
    assert [a][..0] == [];
    assert !Survives([a], 0);
    assert Survives(raw, 1);
    assert SurvivingRows([a]) == [] by { assert SurvivingRows([a][..0]) == []; }
    assert SurvivingRows(raw) == SurvivingRows([a]) + [b];
  }
}
