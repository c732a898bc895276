/** The check on the cleaned table (`validar_datos_procesados`): no null in
    any column, no two identical rows, and no location outside the permitted
    countries. Each finding appends its message to the error list; the check
    passes when the list stays empty. */
module CleanChecks {
  import opened Frame
  import opened Cleaning

  const PermittedCountries: set<string> := {"Ecuador", "Colombia"}

  const NullsMessage: string := "Existen valores nulos en el DataFrame."
  const DuplicatesMessage: string := "Existen filas duplicadas en el DataFrame."
  const ForeignMessage: string := "Se encontraron países fuera de {'Ecuador', 'Colombia'}."

  predicate RowHasNull(r: CleanRow)
  {
    r.location.None? || r.date.None? || r.newCases.None? || r.peopleVaccinated.None? || r.population.None?
  }

  /** Some cell of some row is null. */
  predicate HasNull(df: seq<CleanRow>)
  {
    exists i :: 0 <= i < |df| && RowHasNull(df[i])
  }

  /** Some row equals an earlier one in every column. */
  predicate HasRepeatedRow(df: seq<CleanRow>)
  {
    exists i, j :: 0 <= i < j < |df| && df[i] == df[j]
  }

  /** Every row's location is one of the permitted countries; a null
      location is never permitted. */
  predicate LocationsPermitted(df: seq<CleanRow>)
  {
    forall i :: 0 <= i < |df| ==> df[i].location.Some? && df[i].location.value in PermittedCountries
  }

  /** passed, errores (empty when the check passes), total_filas. */
  datatype CleanCheck = CleanCheck(passed: bool, errors: seq<string>, totalRows: nat)

  /** The three messages are distinct, so each one in the list names its finding. */
  lemma MessagesDistinct()
    ensures NullsMessage != DuplicatesMessage
    ensures NullsMessage != ForeignMessage
    ensures DuplicatesMessage != ForeignMessage
  {
    assert |NullsMessage| < |DuplicatesMessage| < |ForeignMessage|;
  }

  /** The one-entry list `[x]` when `keep` holds, else the empty list. */
  function Kept<T>(keep: bool, x: T): (k: seq<T>)
    ensures k == [] <==> !keep
    ensures keep ==> k == [x]
  {
    if keep then [x] else []
  }

  /** The error list the check builds: one message per finding, in the order
      the findings are tested. */
  function ErrorList(nulls: bool, repeated: bool, foreign: bool): seq<string>
  {
    Kept(nulls, NullsMessage) + Kept(repeated, DuplicatesMessage) + Kept(foreign, ForeignMessage)
  }

  /** The list is empty exactly when nothing was found, and holds a finding's
      message exactly when that finding was made. */
  lemma ErrorListNamesFindings(nulls: bool, repeated: bool, foreign: bool)
    ensures var errors := ErrorList(nulls, repeated, foreign);
      && (errors == [] <==> !nulls && !repeated && !foreign)
      && (NullsMessage in errors <==> nulls)
      && (DuplicatesMessage in errors <==> repeated)
      && (ForeignMessage in errors <==> foreign)
  {
    MessagesDistinct();
  }

  /** The messages appear in the order the findings are tested. */
  lemma ErrorListInCheckOrder(nulls: bool, repeated: bool, foreign: bool)
    ensures IsSubseq(ErrorList(nulls, repeated, foreign), [NullsMessage, DuplicatesMessage, ForeignMessage])
  {
    ChosenInOrder(NullsMessage, DuplicatesMessage, ForeignMessage, nulls, repeated, foreign);
  }

  /** Keeping some of three entries, in their order, gives a subsequence of the three. */
  lemma ChosenInOrder<T>(x: T, y: T, z: T, keepX: bool, keepY: bool, keepZ: bool)
    ensures IsSubseq(Kept(keepX, x) + Kept(keepY, y) + Kept(keepZ, z), [x, y, z])
  {
    var e1 := Kept(keepX, x);
    var e2 := e1 + Kept(keepY, y);
    var b1, b2, b3 := [x], [x, y], [x, y, z];
    ChosenStep([], [], x, keepX);
    assert [] + e1 == e1;
    assert [] + [x] == b1;
    ChosenStep(e1, b1, y, keepY);
    assert b1 + [y] == b2;
    ChosenStep(e2, b2, z, keepZ);
    assert b2 + [z] == b3;
  }

  /** Keeping or skipping one more entry preserves the subsequence order. */
  lemma ChosenStep<T>(a: seq<T>, b: seq<T>, x: T, keep: bool)
    requires IsSubseq(a, b)
    ensures IsSubseq(a + Kept(keep, x), b + [x])
  {
    if keep {
      SubseqAppendBoth(a, b, x);
    } else {
      SubseqExtend(a, b, x);
      assert a + Kept(keep, x) == a;
    }
  }

  /** Appends the message of each finding, in the order the check tests them. */
  method CollectErrors(nulls: bool, repeated: bool, foreign: bool) returns (errors: seq<string>)
    ensures errors == ErrorList(nulls, repeated, foreign)
    ensures errors == [] <==> !nulls && !repeated && !foreign
    ensures NullsMessage in errors <==> nulls
    ensures DuplicatesMessage in errors <==> repeated
    ensures ForeignMessage in errors <==> foreign
    ensures IsSubseq(errors, [NullsMessage, DuplicatesMessage, ForeignMessage])
  {
    errors := [];
    if nulls {
      errors := errors + [NullsMessage];
    }
    if repeated {
      errors := errors + [DuplicatesMessage];
    }
    if foreign {
      errors := errors + [ForeignMessage];
    }
    ErrorListNamesFindings(nulls, repeated, foreign);
    ErrorListInCheckOrder(nulls, repeated, foreign);
  }

  method CheckCleaned(df: seq<CleanRow>) returns (result: CleanCheck)
    ensures result.passed <==> !HasNull(df) && !HasRepeatedRow(df) && LocationsPermitted(df)
    ensures result.passed <==> result.errors == []
    ensures result.errors == ErrorList(HasNull(df), HasRepeatedRow(df), !LocationsPermitted(df))
    ensures NullsMessage in result.errors <==> HasNull(df)
    ensures DuplicatesMessage in result.errors <==> HasRepeatedRow(df)
    ensures ForeignMessage in result.errors <==> !LocationsPermitted(df)
    ensures IsSubseq(result.errors, [NullsMessage, DuplicatesMessage, ForeignMessage])
    ensures result.totalRows == |df|
  {
    var errors := CollectErrors(HasNull(df), HasRepeatedRow(df), !LocationsPermitted(df));
    result := CleanCheck(errors == [], errors, |df|);
  }

  /** On the output of the cleaning stage the check can fail only through a
      null date or a null population: cleaning never drops those, while it
      removes null counts, foreign locations and repeated keys (and so
      repeated rows). */
  lemma CleanedTableFailsOnlyOnNullDateOrPopulation(raw: seq<RawRow>)
    ensures var c := Clean(raw);
      (!HasNull(c) && !HasRepeatedRow(c) && LocationsPermitted(c)) <==>
      forall i :: 0 <= i < |c| ==> c[i].date.Some? && c[i].population.Some?
  {
    var c := Clean(raw);
    assert !HasRepeatedRow(c) by {
      forall i, j | 0 <= i < j < |c| ensures c[i] != c[j] {
        assert c[i].Key() != c[j].Key();
      }
    }
    assert LocationsPermitted(c);
  }
}
