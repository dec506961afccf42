/** The accumulation grid of the shading correction factor: a 3 x 15 x 26 table. The first
    index is 0 for the numerator, 1 for the denominator and 2 for the factor. Rows are named
    as in the program, with Python's negative indices: -2 the cooling period, -1 the heating
    period, 0 the non-conditioned period and 1 .. 12 the months. Columns are -1 for the whole
    day and 0 .. 24 for the hour buckets. Each sub-hour step is added to four cells: its
    period row and its month row, each in its hour bucket and in the whole day column. */
module Grid {
  import opened Calendar
  import opened Periods

  const Rows: int := 15
  const Cols: int := 26
  /** The whole-day column, named -1 in the program. */
  const DayColumn: int := 25

  /** The position a Python index `i` in [-n, n) designates in a list of length `n`. */
  function PyIndex(i: int, n: int): (k: int)
    requires -n <= i < n
    ensures 0 <= k < n && (k == i || k == i + n)
  {
    if i < 0 then i + n else i
  }

  /** The program's name of a row: rows 13 and 14 are written -2 and -1. */
  function RowName(r: int): int { if r >= 13 then r - Rows else r }

  /** The program's name of a column: column 25 is written -1. */
  function ColName(c: int): int { if c == DayColumn then -1 else c }

  /** The weather records carry, for every hour the grid reads, a period row `-tag` and a
      month row that are valid Python indices of the 15 rows. */
  predicate Indexable(recs: seq<WeatherRecord>)
  {
    |recs| >= LastHour &&
    forall k :: 0 <= k < LastHour ==>
      -Rows <= -recs[k].tag < Rows && -Rows <= Month(recs[k].code) < Rows
  }

  /** The table of step contributions holds a numerator and a denominator entry for every
      step of every hour the grid reads. */
  predicate Covers(a: array3<real>, ndt: int)
  {
    a.Length0 >= 2 && a.Length1 >= LastHour && a.Length2 >= ndt
  }

  /** The number of sub-hour steps the loops visit: none for a non-positive count. */
  function Steps(ndt: int): nat { if ndt > 0 then ndt else 0 }

  /** The hour bucket of step `mm` of the running hour `hour`. */
  function Bucket(ndt: int, hour: int, mm: int): int
    requires ndt != 0
  {
    HourBucket(SubHourTime(NDayNHour(hour).1, ndt, mm))
  }

  /** How many of the four cells of a step with period row `tagRow`, month row `monthRow`
      and hour bucket `col` are the cell (i, j). */
  function Hits(tagRow: int, monthRow: int, col: int, i: int, j: int): nat
  {
    (if tagRow == i && col == j then 1 else 0) + (if tagRow == i && DayColumn == j then 1 else 0)
    + (if monthRow == i && col == j then 1 else 0) + (if monthRow == i && DayColumn == j then 1 else 0)
  }

  /** What adding the value `v` to the four cells of a step with period row `tagRow`, month
      row `monthRow` and hour bucket `col` adds to the cell (i, j). */
  function Added(tagRow: int, monthRow: int, col: int, i: int, j: int, v: real): real
  {
    (if tagRow == i && col == j then v else 0.0) + (if tagRow == i && DayColumn == j then v else 0.0)
    + (if monthRow == i && col == j then v else 0.0) + (if monthRow == i && DayColumn == j then v else 0.0)
  }

  /** The cell (i, j) receives the value once for each of the four cells it is. */
  lemma AddedCounts(tagRow: int, monthRow: int, col: int, i: int, j: int, v: real)
    ensures Added(tagRow, monthRow, col, i, j, v) == Hits(tagRow, monthRow, col, i, j) as real * v
  {
  }

  /** What step `mm` of hour `hour`, with value `v`, adds to the cell (i, j). */
  function Share(recs: seq<WeatherRecord>, ndt: int, hour: int, mm: int, i: int, j: int, v: real): real
    requires Indexable(recs) && 0 <= hour < LastHour && 0 <= mm < ndt
  {
    HourBucketRange(hour, ndt, mm);
    Added(PyIndex(-recs[hour].tag, Rows), PyIndex(Month(recs[hour].code), Rows), Bucket(ndt, hour, mm), i, j, v)
  }

  /** What the first `m` steps of hour `hour` add to the cell (i, j) of table `h`. */
  function StepSum(a: array3<real>, recs: seq<WeatherRecord>, ndt: int, h: int, i: int, j: int,
                   hour: int, m: nat): real
    reads a
    requires Covers(a, ndt) && Indexable(recs) && 0 <= h < 2 && 0 <= hour < LastHour && m <= Steps(ndt)
  {
    if m == 0 then 0.0
    else StepSum(a, recs, ndt, h, i, j, hour, m - 1) + Share(recs, ndt, hour, m - 1, i, j, a[h, hour, m - 1])
  }

  /** What the first `k` hours add to the cell (i, j) of table `h`. */
  function HourSum(a: array3<real>, recs: seq<WeatherRecord>, ndt: int, h: int, i: int, j: int, k: nat): real
    reads a
    requires Covers(a, ndt) && Indexable(recs) && 0 <= h < 2 && k <= LastHour
  {
    if k == 0 then 0.0
    else HourSum(a, recs, ndt, h, i, j, k - 1) + StepSum(a, recs, ndt, h, i, j, k - 1, Steps(ndt))
  }

  /** The accumulated value of the cell (i, j) of table `h` (numerator or denominator) over
      the hours 0 .. 8759. */
  function Total(a: array3<real>, recs: seq<WeatherRecord>, ndt: int, h: int, i: int, j: int): real
    reads a
    requires Covers(a, ndt) && Indexable(recs) && 0 <= h < 2
  {
    HourSum(a, recs, ndt, h, i, j, LastHour)
  }

  /** The factor of a cell: numerator over denominator, 0 for a zero denominator. */
  function Ratio(num: real, den: real): (r: real)
    ensures den != 0.0 ==> r * den == num
    ensures den == 0.0 ==> r == 0.0
  {
    if den != 0.0 then num / den else 0.0
  }

  /** Adds the value `v` of one step to its four cells of table `h`. */
  method AddSample(scf: array3<real>, h: int, tagRow: int, monthRow: int, col: int, v: real)
    requires scf.Length0 == 3 && scf.Length1 == Rows && scf.Length2 == Cols
    requires 0 <= h < 2 && 0 <= tagRow < Rows && 0 <= monthRow < Rows && 0 <= col < Cols
    modifies scf
    ensures forall a, i, j :: 0 <= a < 3 && 0 <= i < Rows && 0 <= j < Cols ==>
              scf[a, i, j] == old(scf[a, i, j]) + (if a == h then Added(tagRow, monthRow, col, i, j, v) else 0.0)
  {
    scf[h, tagRow, col] := scf[h, tagRow, col] + v;
    scf[h, tagRow, DayColumn] := scf[h, tagRow, DayColumn] + v;
    scf[h, monthRow, col] := scf[h, monthRow, col] + v;
    scf[h, monthRow, DayColumn] := scf[h, monthRow, DayColumn] + v;
  }

  /** Adds the two values (numerator and denominator) of step `mm` of hour `hour` to their
      cells. */
  method AddStep(scf: array3<real>, recs: seq<WeatherRecord>, ndt: int, scf01: array3<real>, hour: int, mm: int)
    requires scf.Length0 == 3 && scf.Length1 == Rows && scf.Length2 == Cols && scf != scf01
    requires Indexable(recs) && Covers(scf01, ndt) && 0 <= hour < LastHour && 0 <= mm < ndt
    modifies scf
    ensures forall a, i, j :: 0 <= a < 3 && 0 <= i < Rows && 0 <= j < Cols ==>
              scf[a, i, j] == old(scf[a, i, j])
                              + (if a < 2 then Share(recs, ndt, hour, mm, i, j, scf01[a, hour, mm]) else 0.0)
  {
    var (_, nHour) := NDayNHour(hour);
    var month := Month(recs[hour].code);
    var tt := SubHourTime(nHour, ndt, mm);
    var hour01 := HourBucket(tt);
    var hcTag := -recs[hour].tag;
    HourBucketRange(hour, ndt, mm);
    var tagRow, monthRow := PyIndex(hcTag, Rows), PyIndex(month, Rows);
    var h := 0;
    while h < 2
      invariant 0 <= h <= 2
      invariant forall a, i, j :: 0 <= a < 3 && 0 <= i < Rows && 0 <= j < Cols ==>
                  scf[a, i, j] == old(scf[a, i, j])
                                  + (if a < h then Added(tagRow, monthRow, hour01, i, j, scf01[a, hour, mm]) else 0.0)
    {
      AddSample(scf, h, tagRow, monthRow, hour01, scf01[h, hour, mm]);
      h := h + 1;
    }
  }

  /** Adds every step of hour `hour` to its cells. */
  method AddHour(scf: array3<real>, recs: seq<WeatherRecord>, ndt: int, scf01: array3<real>, hour: int)
    requires scf.Length0 == 3 && scf.Length1 == Rows && scf.Length2 == Cols && scf != scf01
    requires Indexable(recs) && Covers(scf01, ndt) && 0 <= hour < LastHour
    modifies scf
    ensures forall a, i, j :: 0 <= a < 3 && 0 <= i < Rows && 0 <= j < Cols ==>
              scf[a, i, j] == old(scf[a, i, j])
                              + (if a < 2 then StepSum(scf01, recs, ndt, a, i, j, hour, Steps(ndt)) else 0.0)
  {
    var mm := 0;
    while mm < ndt
      invariant 0 <= mm <= Steps(ndt)
      invariant forall a, i, j :: 0 <= a < 3 && 0 <= i < Rows && 0 <= j < Cols ==>
                  scf[a, i, j] == old(scf[a, i, j])
                                  + (if a < 2 then StepSum(scf01, recs, ndt, a, i, j, hour, mm) else 0.0)
    {
      AddStep(scf, recs, ndt, scf01, hour, mm);
      mm := mm + 1;
    }
  }

  /** Sets the factor of every cell from its numerator and denominator, visiting the cells in
      the program's order (rows -2 .. 12, columns -1 .. 24). */
  method Finalise(scf: array3<real>)
    requires scf.Length0 == 3 && scf.Length1 == Rows && scf.Length2 == Cols
    modifies scf
    ensures forall h, r, c :: 0 <= h < 2 && 0 <= r < Rows && 0 <= c < Cols ==> scf[h, r, c] == old(scf[h, r, c])
    ensures forall r, c :: 0 <= r < Rows && 0 <= c < Cols ==> scf[2, r, c] == Ratio(scf[0, r, c], scf[1, r, c])
  {
    var i := -2;
    while i < 13
      invariant -2 <= i <= 13
      invariant forall h, r, c :: 0 <= h < 2 && 0 <= r < Rows && 0 <= c < Cols ==> scf[h, r, c] == old(scf[h, r, c])
      invariant forall r, c :: 0 <= r < Rows && 0 <= c < Cols && RowName(r) < i ==>
                  scf[2, r, c] == Ratio(scf[0, r, c], scf[1, r, c])
    {
      var j := -1;
      while j < 25
        invariant -1 <= j <= 25
        invariant forall h, r, c :: 0 <= h < 2 && 0 <= r < Rows && 0 <= c < Cols ==> scf[h, r, c] == old(scf[h, r, c])
        invariant forall r, c :: 0 <= r < Rows && 0 <= c < Cols && (RowName(r) < i || (RowName(r) == i && ColName(c) < j)) ==>
                    scf[2, r, c] == Ratio(scf[0, r, c], scf[1, r, c])
      {
        var r, c := PyIndex(i, Rows), PyIndex(j, Cols);
        if scf[1, r, c] != 0.0 {
          scf[2, r, c] := scf[0, r, c] / scf[1, r, c];
        } else {
          scf[2, r, c] := 0.0;
        }
        j := j + 1;
      }
      i := i + 1;
    }
  }

  /** The grid: every step of the hours 0 .. 8759 added to its cells, then the factor of every
      cell. */
  method Output(recs: seq<WeatherRecord>, ndt: int, scf01: array3<real>) returns (scf: array3<real>)
    requires Indexable(recs) && Covers(scf01, ndt)
    ensures fresh(scf) && scf.Length0 == 3 && scf.Length1 == Rows && scf.Length2 == Cols
    ensures forall h, i, j :: 0 <= h < 2 && 0 <= i < Rows && 0 <= j < Cols ==>
              scf[h, i, j] == Total(scf01, recs, ndt, h, i, j)
    ensures forall i, j :: 0 <= i < Rows && 0 <= j < Cols ==> scf[2, i, j] == Ratio(scf[0, i, j], scf[1, i, j])
  {
    scf := new real[3, Rows, Cols]((_, _, _) => 0.0);
    var hour := 0;
    while hour < LastHour
      invariant 0 <= hour <= LastHour
      invariant forall h, i, j :: 0 <= h < 2 && 0 <= i < Rows && 0 <= j < Cols ==>
                  scf[h, i, j] == HourSum(scf01, recs, ndt, h, i, j, hour)
    {
      AddHour(scf, recs, ndt, scf01, hour);
      hour := hour + 1;
    }
    Finalise(scf);
  }

  // ---------------------------------------------------------------------------------------
  // Properties of the accumulated values.

  /** For a period row named `hcTag` (-2, -1 or 0: minus the record's tag), a month row
      1 .. 12 and an hour bucket 0 .. 24, the four cells of a step are distinct: the period
      row is never a month row, and the hour bucket is never the whole-day column. The value
      goes to exactly the cells of those two rows in those two columns, once each. */
  lemma FourDistinctCells(hcTag: int, month: int, col: int)
    requires -2 <= hcTag <= 0 && 1 <= month <= 12 && 0 <= col <= 24
    ensures RowName(PyIndex(hcTag, Rows)) == hcTag && PyIndex(month, Rows) == month
    ensures PyIndex(hcTag, Rows) != PyIndex(month, Rows) && col != DayColumn
    ensures forall i, j :: Hits(PyIndex(hcTag, Rows), PyIndex(month, Rows), col, i, j)
                         == if (i == PyIndex(hcTag, Rows) || i == month) && (j == col || j == DayColumn) then 1 else 0
  {
  }

  /** What one step, with value `v`, adds to the cells of `cells` together. */
  function SharesOver(recs: seq<WeatherRecord>, ndt: int, hour: int, mm: int, cells: seq<(int, int)>, v: real): real
    requires Indexable(recs) && 0 <= hour < LastHour && 0 <= mm < ndt
  {
    if cells == [] then 0.0
    else SharesOver(recs, ndt, hour, mm, cells[..|cells| - 1], v)
         + Share(recs, ndt, hour, mm, cells[|cells| - 1].0, cells[|cells| - 1].1, v)
  }

  /** What the first `m` steps of hour `hour` add to the cells of `cells` together. */
  function StepsOver(a: array3<real>, recs: seq<WeatherRecord>, ndt: int, h: int, cells: seq<(int, int)>,
                     hour: int, m: nat): real
    reads a
    requires Covers(a, ndt) && Indexable(recs) && 0 <= h < 2 && 0 <= hour < LastHour && m <= Steps(ndt)
  {
    if cells == [] then 0.0
    else StepsOver(a, recs, ndt, h, cells[..|cells| - 1], hour, m)
         + StepSum(a, recs, ndt, h, cells[|cells| - 1].0, cells[|cells| - 1].1, hour, m)
  }

  /** What the first `k` hours add to the cells of `cells` together; for `k` = 8760 the sum of
      the accumulated values of those cells. */
  function CellsSum(a: array3<real>, recs: seq<WeatherRecord>, ndt: int, h: int, cells: seq<(int, int)>, k: nat): real
    reads a
    requires Covers(a, ndt) && Indexable(recs) && 0 <= h < 2 && k <= LastHour
  {
    if cells == [] then 0.0
    else CellsSum(a, recs, ndt, h, cells[..|cells| - 1], k) + HourSum(a, recs, ndt, h, cells[|cells| - 1].0, cells[|cells| - 1].1, k)
  }

  lemma {:induction false} StepsOverSplit(a: array3<real>, recs: seq<WeatherRecord>, ndt: int, h: int,
                                          cells: seq<(int, int)>, hour: int, m: nat)
    requires Covers(a, ndt) && Indexable(recs) && 0 <= h < 2 && 0 <= hour < LastHour && 1 <= m <= Steps(ndt)
    ensures StepsOver(a, recs, ndt, h, cells, hour, m)
         == StepsOver(a, recs, ndt, h, cells, hour, m - 1) + SharesOver(recs, ndt, hour, m - 1, cells, a[h, hour, m - 1])
  {
    if cells != [] {
      StepsOverSplit(a, recs, ndt, h, cells[..|cells| - 1], hour, m);
    }
  }

  lemma {:induction false} CellsSumSplit(a: array3<real>, recs: seq<WeatherRecord>, ndt: int, h: int,
                                         cells: seq<(int, int)>, k: nat)
    requires Covers(a, ndt) && Indexable(recs) && 0 <= h < 2 && 1 <= k <= LastHour
    ensures CellsSum(a, recs, ndt, h, cells, k)
         == CellsSum(a, recs, ndt, h, cells, k - 1) + StepsOver(a, recs, ndt, h, cells, k - 1, Steps(ndt))
  {
    if cells != [] {
      CellsSumSplit(a, recs, ndt, h, cells[..|cells| - 1], k);
    }
  }

  /** Every step adds the same to the cells of `c1` together as to those of `c2`. */
  ghost predicate SameShares(recs: seq<WeatherRecord>, ndt: int, c1: seq<(int, int)>, c2: seq<(int, int)>)
    requires Indexable(recs)
  {
    forall hour, mm, v :: 0 <= hour < LastHour && 0 <= mm < ndt ==>
      SharesOver(recs, ndt, hour, mm, c1, v) == SharesOver(recs, ndt, hour, mm, c2, v)
  }

  lemma {:induction false} StepsOverAgree(a: array3<real>, recs: seq<WeatherRecord>, ndt: int, h: int,
                                          c1: seq<(int, int)>, c2: seq<(int, int)>, hour: int, m: nat)
    requires Covers(a, ndt) && Indexable(recs) && 0 <= h < 2 && 0 <= hour < LastHour && m <= Steps(ndt)
    requires SameShares(recs, ndt, c1, c2)
    ensures StepsOver(a, recs, ndt, h, c1, hour, m) == StepsOver(a, recs, ndt, h, c2, hour, m)
  {
    if m == 0 {
      StepsOverZero(a, recs, ndt, h, c1, hour);
      StepsOverZero(a, recs, ndt, h, c2, hour);
    } else {
      StepsOverAgree(a, recs, ndt, h, c1, c2, hour, m - 1);
      StepsOverSplit(a, recs, ndt, h, c1, hour, m);
      StepsOverSplit(a, recs, ndt, h, c2, hour, m);
    }
  }

  lemma {:induction false} StepsOverZero(a: array3<real>, recs: seq<WeatherRecord>, ndt: int, h: int,
                                         cells: seq<(int, int)>, hour: int)
    requires Covers(a, ndt) && Indexable(recs) && 0 <= h < 2 && 0 <= hour < LastHour
    ensures StepsOver(a, recs, ndt, h, cells, hour, 0) == 0.0
  {
    if cells != [] {
      StepsOverZero(a, recs, ndt, h, cells[..|cells| - 1], hour);
    }
  }

  lemma {:induction false} CellsSumZero(a: array3<real>, recs: seq<WeatherRecord>, ndt: int, h: int,
                                        cells: seq<(int, int)>)
    requires Covers(a, ndt) && Indexable(recs) && 0 <= h < 2
    ensures CellsSum(a, recs, ndt, h, cells, 0) == 0.0
  {
    if cells != [] {
      CellsSumZero(a, recs, ndt, h, cells[..|cells| - 1]);
    }
  }

  /** Cells that every step feeds alike accumulate alike. */
  lemma {:induction false} CellsSumAgree(a: array3<real>, recs: seq<WeatherRecord>, ndt: int, h: int,
                                         c1: seq<(int, int)>, c2: seq<(int, int)>, k: nat)
    requires Covers(a, ndt) && Indexable(recs) && 0 <= h < 2 && k <= LastHour
    requires SameShares(recs, ndt, c1, c2)
    ensures CellsSum(a, recs, ndt, h, c1, k) == CellsSum(a, recs, ndt, h, c2, k)
  {
    if k == 0 {
      CellsSumZero(a, recs, ndt, h, c1);
      CellsSumZero(a, recs, ndt, h, c2);
    } else {
      CellsSumAgree(a, recs, ndt, h, c1, c2, k - 1);
      CellsSumSplit(a, recs, ndt, h, c1, k);
      CellsSumSplit(a, recs, ndt, h, c2, k);
      StepsOverAgree(a, recs, ndt, h, c1, c2, k - 1, Steps(ndt));
      SumsAgree(CellsSum(a, recs, ndt, h, c1, k), CellsSum(a, recs, ndt, h, c1, k - 1),
                StepsOver(a, recs, ndt, h, c1, k - 1, Steps(ndt)),
                CellsSum(a, recs, ndt, h, c2, k), CellsSum(a, recs, ndt, h, c2, k - 1),
                StepsOver(a, recs, ndt, h, c2, k - 1, Steps(ndt)));
    }
  }

  /** Sums of equal parts are equal. */
  lemma SumsAgree(x: real, a: real, b: real, y: real, c: real, d: real)
    requires x == a + b && y == c + d && a == c && b == d
    ensures x == y
  {
  }

  /** The hour-bucket cells 0 .. n - 1 of row `i`. */
  function Columns(i: int, n: nat): (cells: seq<(int, int)>)
    ensures |cells| == n && forall c :: 0 <= c < n ==> cells[c] == (i, c)
  {
    if n == 0 then [] else Columns(i, n - 1) + [(i, n - 1)]
  }

  /** A step adds to the hour cells 0 .. n - 1 of a row together what it adds to the row's
      whole-day cell when its hour bucket is among them, and nothing otherwise. */
  lemma {:induction false} ColumnsShares(recs: seq<WeatherRecord>, ndt: int, hour: int, mm: int, i: int, n: nat, v: real)
    requires Indexable(recs) && 0 <= hour < LastHour && 0 <= mm < ndt && n <= DayColumn
    ensures SharesOver(recs, ndt, hour, mm, Columns(i, n), v)
         == if Bucket(ndt, hour, mm) < n then Share(recs, ndt, hour, mm, i, DayColumn, v) else 0.0
  {
    HourBucketRange(hour, ndt, mm);
    if n > 0 {
      ColumnsShares(recs, ndt, hour, mm, i, n - 1, v);
      assert Columns(i, n)[..n - 1] == Columns(i, n - 1);
    }
  }

  /** Every row's whole-day cell (column -1) accumulates the sum of its 25 hour cells. */
  lemma DayColumnIsSumOfHours(a: array3<real>, recs: seq<WeatherRecord>, ndt: int, h: int, i: int)
    requires Covers(a, ndt) && Indexable(recs) && 0 <= h < 2
    ensures Total(a, recs, ndt, h, i, DayColumn) == CellsSum(a, recs, ndt, h, Columns(i, DayColumn), LastHour)
  {
    forall hour, mm, v | 0 <= hour < LastHour && 0 <= mm < ndt
      ensures SharesOver(recs, ndt, hour, mm, Columns(i, DayColumn), v) == SharesOver(recs, ndt, hour, mm, [(i, DayColumn)], v)
    {
      ColumnsShares(recs, ndt, hour, mm, i, DayColumn, v);
      HourBucketRange(hour, ndt, mm);
      assert [(i, DayColumn)][..0] == [];
    }
    CellsSumAgree(a, recs, ndt, h, Columns(i, DayColumn), [(i, DayColumn)], LastHour);
    assert [(i, DayColumn)][..0] == [];
  }

  /** The records handed to the grid carry a period tag 0, 1 or 2 and a month 1 .. 12. */
  predicate Conditioned(recs: seq<WeatherRecord>)
  {
    |recs| >= LastHour &&
    forall k :: 0 <= k < LastHour ==> 0 <= recs[k].tag <= 2 && 1 <= Month(recs[k].code) <= 12
  }

  /** The cells of column `j` in the first `n` period rows: 0, -1 and -2 for the tags 0, 1
      and 2. */
  function PeriodsUpTo(j: int, n: nat): (cells: seq<(int, int)>)
    requires n <= 3
    ensures |cells| == n
  {
    if n == 0 then [] else PeriodsUpTo(j, n - 1) + [(PyIndex(-(n - 1), Rows), j)]
  }

  /** The cells of column `j` in the first `n` month rows 1 .. n. */
  function MonthsUpTo(j: int, n: nat): (cells: seq<(int, int)>)
    ensures |cells| == n
  {
    if n == 0 then [] else MonthsUpTo(j, n - 1) + [(n, j)]
  }

  /** What a step adds to one of the period rows (or one of the month rows) in column `j`. */
  function Once(ndt: int, hour: int, mm: int, j: int, v: real): real
    requires ndt != 0
  {
    (if Bucket(ndt, hour, mm) == j then v else 0.0) + (if DayColumn == j then v else 0.0)
  }

  lemma {:induction false} PeriodsShare(recs: seq<WeatherRecord>, ndt: int, hour: int, mm: int, j: int, v: real, n: nat)
    requires Indexable(recs) && Conditioned(recs) && 0 <= hour < LastHour && 0 <= mm < ndt && n <= 3
    ensures SharesOver(recs, ndt, hour, mm, PeriodsUpTo(j, n), v)
         == if recs[hour].tag < n then Once(ndt, hour, mm, j, v) else 0.0
  {
    if n > 0 {
      PeriodsShare(recs, ndt, hour, mm, j, v, n - 1);
      assert PeriodsUpTo(j, n)[..n - 1] == PeriodsUpTo(j, n - 1);
    }
  }

  lemma {:induction false} MonthsShare(recs: seq<WeatherRecord>, ndt: int, hour: int, mm: int, j: int, v: real, n: nat)
    requires Indexable(recs) && Conditioned(recs) && 0 <= hour < LastHour && 0 <= mm < ndt && n <= 12
    ensures SharesOver(recs, ndt, hour, mm, MonthsUpTo(j, n), v)
         == if Month(recs[hour].code) <= n then Once(ndt, hour, mm, j, v) else 0.0
  {
    if n > 0 {
      MonthsShare(recs, ndt, hour, mm, j, v, n - 1);
      assert MonthsUpTo(j, n)[..n - 1] == MonthsUpTo(j, n - 1);
    }
  }

  /** The three period rows together accumulate, column by column, what the twelve month rows
      accumulate together: every step belongs to exactly one period and one month. */
  lemma PeriodsMatchMonths(a: array3<real>, recs: seq<WeatherRecord>, ndt: int, h: int, j: int)
    requires Covers(a, ndt) && Indexable(recs) && Conditioned(recs) && 0 <= h < 2
    ensures CellsSum(a, recs, ndt, h, PeriodsUpTo(j, 3), LastHour) == CellsSum(a, recs, ndt, h, MonthsUpTo(j, 12), LastHour)
  {
    forall hour, mm, v | 0 <= hour < LastHour && 0 <= mm < ndt
      ensures SharesOver(recs, ndt, hour, mm, PeriodsUpTo(j, 3), v) == SharesOver(recs, ndt, hour, mm, MonthsUpTo(j, 12), v)
    {
      PeriodsShare(recs, ndt, hour, mm, j, v, 3);
      MonthsShare(recs, ndt, hour, mm, j, v, 12);
    }
    CellsSumAgree(a, recs, ndt, h, PeriodsUpTo(j, 3), MonthsUpTo(j, 12), LastHour);
  }

  /** Every step's numerator lies between 0 and its denominator. */
  predicate StepsOrdered(a: array3<real>, ndt: int)
    reads a
    requires Covers(a, ndt)
  {
    forall hour, mm :: 0 <= hour < LastHour && 0 <= mm < ndt ==> 0.0 <= a[0, hour, mm] <= a[1, hour, mm]
  }

  lemma {:induction false} StepSumOrdered(a: array3<real>, recs: seq<WeatherRecord>, ndt: int, i: int, j: int, hour: int, m: nat)
    requires Covers(a, ndt) && Indexable(recs) && StepsOrdered(a, ndt) && 0 <= hour < LastHour && m <= Steps(ndt)
    ensures 0.0 <= StepSum(a, recs, ndt, 0, i, j, hour, m) <= StepSum(a, recs, ndt, 1, i, j, hour, m)
  {
    if m > 0 {
      StepSumOrdered(a, recs, ndt, i, j, hour, m - 1);
      assert 0.0 <= a[0, hour, m - 1] <= a[1, hour, m - 1];
    }
  }

  lemma {:induction false} HourSumOrdered(a: array3<real>, recs: seq<WeatherRecord>, ndt: int, i: int, j: int, k: nat)
    requires Covers(a, ndt) && Indexable(recs) && StepsOrdered(a, ndt) && k <= LastHour
    ensures 0.0 <= HourSum(a, recs, ndt, 0, i, j, k) <= HourSum(a, recs, ndt, 1, i, j, k)
  {
    if k > 0 {
      HourSumOrdered(a, recs, ndt, i, j, k - 1);
      StepSumOrdered(a, recs, ndt, i, j, k - 1, Steps(ndt));
    }
  }

  /** When every step adds to the numerator between 0 and what it adds to the denominator,
      every cell's factor lies in [0, 1]. */
  lemma FactorWithinUnit(a: array3<real>, recs: seq<WeatherRecord>, ndt: int, i: int, j: int)
    requires Covers(a, ndt) && Indexable(recs) && StepsOrdered(a, ndt)
    ensures 0.0 <= Total(a, recs, ndt, 0, i, j) <= Total(a, recs, ndt, 1, i, j)
    ensures 0.0 <= Ratio(Total(a, recs, ndt, 0, i, j), Total(a, recs, ndt, 1, i, j)) <= 1.0
  {
    HourSumOrdered(a, recs, ndt, i, j, LastHour);
    var num, den := Total(a, recs, ndt, 0, i, j), Total(a, recs, ndt, 1, i, j);
    if den != 0.0 {
      assert num / den <= 1.0 by {
        assert num / den * den == num;
      }
    }
  }
}
