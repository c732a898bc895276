/** The per-location window machinery behind grouping by location followed
    by a rolling window or a shift. A group's series is the column's values at
    the rows of that location, in row order; windows and shifts count rows of
    that series, never calendar days, and rows of other locations never enter
    it. A row with a null location belongs to no group and gets a null. */
module Windows {
  import opened Frame

  function Locations(data: seq<CleanRow>): (locs: seq<Option<string>>)
    ensures |locs| == |data|
    ensures forall i :: 0 <= i < |data| ==> locs[i] == data[i].location
  {
    seq(|data|, i requires 0 <= i < |data| => data[i].location)
  }

  /** The values `col` holds at the rows before `n` whose location is `loc`,
      in row order. */
  function GroupValues<T>(locs: seq<Option<string>>, col: seq<T>, loc: string, n: nat): (g: seq<T>)
    requires |col| == |locs| && n <= |locs|
    ensures |g| <= n
  {
    if n == 0 then []
    else GroupValues(locs, col, loc, n - 1) + (if locs[n - 1] == Some(loc) then [col[n - 1]] else [])
  }

  /** The positions before `n` whose location is `loc`, in row order. */
  function GroupRows(locs: seq<Option<string>>, loc: string, n: nat): (g: seq<nat>)
    requires n <= |locs|
    ensures |g| <= n
    ensures forall k :: 0 <= k < |g| ==> g[k] < n && locs[g[k]] == Some(loc)
  {
    if n == 0 then []
    else GroupRows(locs, loc, n - 1) + (if locs[n - 1] == Some(loc) then [n - 1] else [])
  }

  /** The last `w` entries of `s`, or all of `s` when it is shorter. */
  function Trailing<T>(s: seq<T>, w: nat): (t: seq<T>)
    ensures |t| == Min(w, |s|)
    ensures s == s[..|s| - |t|] + t
  {
    s[|s| - Min(w, |s|)..]
  }

  /** The rolling window at row `i`: the last `w` values of its group's series,
      row `i` included. */
  function WindowAt<T>(locs: seq<Option<string>>, col: seq<T>, i: nat, w: nat): seq<T>
    requires |col| == |locs| && i < |locs| && locs[i].Some?
  {
    Trailing(GroupValues(locs, col, locs[i].value, i + 1), w)
  }

  /** `shift(p)` within the group at row `i`: the value `p` rows of the same
      location earlier, or null when the group has no such row. */
  function ShiftAt<T>(locs: seq<Option<string>>, col: seq<Option<T>>, i: nat, p: nat): Option<T>
    requires |col| == |locs| && i < |locs|
  {
    if locs[i].None? then None
    else
      var g := GroupValues(locs, col, locs[i].value, i + 1);
      if |g| > p then g[|g| - 1 - p] else None
  }

  /** The non-null values of a window, in order. */
  function Present<T>(vals: seq<Option<T>>): (p: seq<T>)
    ensures |p| <= |vals|
  {
    if vals == [] then []
    else
      var last := vals[|vals| - 1];
      Present(vals[..|vals| - 1]) + (if last.Some? then [last.value] else [])
  }

  // ---------------------------------------------------------------------
  // Facts about group series

  /** Row `i`'s own value closes its group's series. */
  lemma GroupValuesAtOwnRow<T>(locs: seq<Option<string>>, col: seq<T>, i: nat)
    requires |col| == |locs| && i < |locs| && locs[i].Some?
    ensures GroupValues(locs, col, locs[i].value, i + 1) ==
      GroupValues(locs, col, locs[i].value, i) + [col[i]]
  {
  }

  /** The `k`-th value of a group series is the column at the group's `k`-th row. */
  lemma {:induction false} GroupValuesIndex<T>(locs: seq<Option<string>>, col: seq<T>, loc: string, n: nat)
    requires |col| == |locs| && n <= |locs|
    ensures |GroupValues(locs, col, loc, n)| == |GroupRows(locs, loc, n)|
    ensures forall k :: 0 <= k < |GroupRows(locs, loc, n)| ==>
      GroupValues(locs, col, loc, n)[k] == col[GroupRows(locs, loc, n)[k]]
  {
    if n > 0 {
      GroupValuesIndex(locs, col, loc, n - 1);
    }
  }

  /** The group's rows up to its `k`-th row are its first k + 1 rows. */
  lemma {:induction false} GroupRowsPrefix(locs: seq<Option<string>>, loc: string, n: nat, k: nat)
    requires n <= |locs| && k < |GroupRows(locs, loc, n)|
    ensures GroupRows(locs, loc, GroupRows(locs, loc, n)[k] + 1) == GroupRows(locs, loc, n)[..k + 1]
  {
    var g, g' := GroupRows(locs, loc, n), GroupRows(locs, loc, n - 1);
    if k < |g'| {
      GroupRowsPrefix(locs, loc, n - 1, k);
      assert g[k] == g'[k];
      assert g[..k + 1] == g'[..k + 1];
    } else {
      assert g[k] == n - 1;
      assert g[..k + 1] == g;
    }
  }

  /** A property that holds of the column at every row of the location holds
      of every value of the group series. */
  lemma {:induction false} GroupValuesSatisfy<T>(locs: seq<Option<string>>, col: seq<T>, loc: string, n: nat, ok: T -> bool)
    requires |col| == |locs| && n <= |locs|
    requires forall j :: 0 <= j < n && locs[j] == Some(loc) ==> ok(col[j])
    ensures forall k :: 0 <= k < |GroupValues(locs, col, loc, n)| ==> ok(GroupValues(locs, col, loc, n)[k])
  {
    if n > 0 {
      GroupValuesSatisfy(locs, col, loc, n - 1, ok);
    }
  }

  /** In a table holding a single location, the group series is the column
      itself: windows and shifts become plain row offsets. */
  lemma {:induction false} GroupValuesSingleLocation<T>(locs: seq<Option<string>>, col: seq<T>, loc: string, n: nat)
    requires |col| == |locs| && n <= |locs|
    requires forall j :: 0 <= j < n ==> locs[j] == Some(loc)
    ensures GroupValues(locs, col, loc, n) == col[..n]
  {
    if n > 0 {
      GroupValuesSingleLocation(locs, col, loc, n - 1);
      assert col[..n] == col[..n - 1] + [col[n - 1]];
    }
  }

  /** Appending rows never changes the series of earlier rows. */
  lemma {:induction false} GroupValuesAppend<T>(locs: seq<Option<string>>, col: seq<T>,
                                                moreLocs: seq<Option<string>>, moreCol: seq<T>,
                                                loc: string, n: nat)
    requires |col| == |locs| && |moreCol| == |moreLocs| && n <= |locs|
    ensures GroupValues(locs + moreLocs, col + moreCol, loc, n) == GroupValues(locs, col, loc, n)
  {
    if n > 0 {
      GroupValuesAppend(locs, col, moreLocs, moreCol, loc, n - 1);
      assert (locs + moreLocs)[n - 1] == locs[n - 1];
      assert (col + moreCol)[n - 1] == col[n - 1];
    }
  }

  /** A group's series depends only on the rows of that location: two tables
      that have the location at the same rows, with the same values there,
      give the same series whatever their other rows hold. */
  lemma {:induction false} GroupValuesOwnRowsOnly<T>(locs: seq<Option<string>>, col: seq<T>,
                                                     locs': seq<Option<string>>, col': seq<T>,
                                                     loc: string, n: nat)
    requires |col| == |locs| && |col'| == |locs'| && n <= |locs| && n <= |locs'|
    requires forall j :: 0 <= j < n ==> (locs[j] == Some(loc) <==> locs'[j] == Some(loc))
    requires forall j :: 0 <= j < n && locs[j] == Some(loc) ==> col[j] == col'[j]
    ensures GroupValues(locs, col, loc, n) == GroupValues(locs', col', loc, n)
  {
    if n > 0 {
      GroupValuesOwnRowsOnly(locs, col, locs', col', loc, n - 1);
    }
  }

  /** In a single-location table, `shift(p)` at row `i` reads row `i - p`. */
  lemma ShiftSingleLocation<T>(locs: seq<Option<string>>, col: seq<Option<T>>, loc: string, i: nat, p: nat)
    requires |col| == |locs| && i < |locs|
    requires forall j :: 0 <= j < |locs| ==> locs[j] == Some(loc)
    ensures ShiftAt(locs, col, i, p) == if i >= p then col[i - p] else None
  {
    GroupValuesSingleLocation(locs, col, loc, i + 1);
  }

  /** `shift(p)` at row `i` reads the group's row `p` places before row `i`,
      and is null when the group has no such row. */
  lemma ShiftReadsEarlierGroupRow<T>(locs: seq<Option<string>>, col: seq<Option<T>>, i: nat, p: nat)
    requires |col| == |locs| && i < |locs| && locs[i].Some?
    ensures var g := GroupRows(locs, locs[i].value, i + 1);
      if |g| <= p then ShiftAt(locs, col, i, p) == None
      else
        var k := |g| - 1 - p;
        && ShiftAt(locs, col, i, p) == col[g[k]]
        && locs[g[k]] == locs[i]
        && |GroupRows(locs, locs[i].value, g[k] + 1)| == k + 1
  {
    var loc := locs[i].value;
    var g := GroupRows(locs, loc, i + 1);
    GroupValuesIndex(locs, col, loc, i + 1);
    if |g| > p {
      GroupRowsPrefix(locs, loc, i + 1, |g| - 1 - p);
    }
  }

  // ---------------------------------------------------------------------
  // Facts about non-null values

  /** When no entry is null, nothing is dropped. */
  lemma {:induction false} PresentAllSome<T>(vals: seq<Option<T>>)
    requires forall k :: 0 <= k < |vals| ==> vals[k].Some?
    ensures |Present(vals)| == |vals|
    ensures forall k :: 0 <= k < |vals| ==> Present(vals)[k] == vals[k].value
  {
    if vals != [] {
      PresentAllSome(vals[..|vals| - 1]);
    }
  }

  /** A window with a null entry loses it. */
  lemma {:induction false} PresentDropsNull<T>(vals: seq<Option<T>>, k: nat)
    requires k < |vals| && vals[k].None?
    ensures |Present(vals)| < |vals|
  {
    var pre := vals[..|vals| - 1];
    if k < |vals| - 1 {
      assert pre[k] == vals[k];
      PresentDropsNull(pre, k);
    }
  }

  /** A property of every non-null entry holds of every present value. */
  lemma {:induction false} PresentSatisfy<T>(vals: seq<Option<T>>, ok: T -> bool)
    requires forall j :: 0 <= j < |vals| && vals[j].Some? ==> ok(vals[j].value)
    ensures forall k :: 0 <= k < |Present(vals)| ==> ok(Present(vals)[k])
  {
    if vals != [] {
      PresentSatisfy(vals[..|vals| - 1], ok);
    }
  }

  /** A property of every non-null value the column holds at the rows of
      row `i`'s location, up to `i`, holds of every value the window at `i`
      aggregates: no other location's rows and no later row enter it. */
  lemma WindowValuesSatisfy<T>(locs: seq<Option<string>>, col: seq<Option<T>>, i: nat, w: nat, ok: T -> bool)
    requires |col| == |locs| && i < |locs| && locs[i].Some?
    requires forall j :: 0 <= j <= i && locs[j] == locs[i] && col[j].Some? ==> ok(col[j].value)
    ensures forall k :: 0 <= k < |Present(WindowAt(locs, col, i, w))| ==> ok(Present(WindowAt(locs, col, i, w))[k])
  {
    var okEntry := (v: Option<T>) => v.Some? ==> ok(v.value);
    var g := GroupValues(locs, col, locs[i].value, i + 1);
    GroupValuesSatisfy(locs, col, locs[i].value, i + 1, okEntry);
    var win := WindowAt(locs, col, i, w);
    forall j | 0 <= j < |win| && win[j].Some? ensures ok(win[j].value) {
      assert win[j] == g[|g| - |win| + j];
      assert okEntry(g[|g| - |win| + j]);
    }
    PresentSatisfy(win, ok);
  }
}
