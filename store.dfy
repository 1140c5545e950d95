/** The record store (db.js): the two tables held as maps that every handler and the
    reconciliation tick rewrite in place, and the seeding of the grid table (db.js:60-77). */
module RecordStore {
  import opened Schema

  /** The 26 column letters of the grid, A to Z. */
  const Columns: string := "ABCDEFGHIJKLMNOPQRSTUVWXYZ"

  /** The number of grid rows; rows are numbered 1 to 16. */
  const RowCount: nat := 16

  /** The decimal text of a natural number, as a template string writes it. */
  function Decimal(n: nat): (s: string)
    ensures 1 <= |s|
    ensures |s| == 1 <==> n < 10
    ensures n >= 10 ==> s[0] != '0'
    ensures forall i :: 0 <= i < |s| ==> '0' <= s[i] <= '9'
  {
    if n < 10 then [(48 + n) as char] else Decimal(n / 10) + [(48 + n % 10) as char]
  }

  /** Different numbers have different decimal texts. */
  lemma {:induction false} DecimalInjective(m: nat, n: nat)
    requires Decimal(m) == Decimal(n)
    ensures m == n
  {
    if m < 10 || n < 10 {
      assert |Decimal(m)| == 1 && |Decimal(n)| == 1;
    } else {
      var sm, sn := Decimal(m), Decimal(n);
      assert sm[|sm| - 1] == sn[|sn| - 1];
      assert m % 10 == n % 10;
      assert sm[..|sm| - 1] == Decimal(m / 10);
      assert sn[..|sn| - 1] == Decimal(n / 10);
      DecimalInjective(m / 10, n / 10);
    }
  }

  /** The value of one decimal digit. */
  function DigitValue(c: char): nat
  {
    if '0' <= c <= '9' then c as int - '0' as int else 0
  }

  /** The number a text of decimal digits denotes, read most significant digit first. */
  function DigitsValue(s: string): nat
  {
    if s == [] then 0 else 10 * DigitsValue(s[..|s| - 1]) + DigitValue(s[|s| - 1])
  }

  /** `Decimal` spells `n` in base ten: reading its digits back gives `n`. */
  lemma {:induction false} DecimalRoundTrip(n: nat)
    ensures DigitsValue(Decimal(n)) == n
  {
    if n >= 10 {
      var s := Decimal(n);
      assert s[..|s| - 1] == Decimal(n / 10);
      DecimalRoundTrip(n / 10);
    }
  }

  /** The key `${col}${r}` of the cell in column `col` (0-based) and row `row` (1-based). */
  function CellKey(col: nat, row: nat): Location
    requires col < |Columns|
  {
    [Columns[col]] + Decimal(row)
  }

  lemma ColumnsDistinct(i: nat, j: nat)
    requires i < |Columns| && j < |Columns| && Columns[i] == Columns[j]
    ensures i == j
  {
  }

  /** The first and the last seeded keys are spelled `A1` and `Z16`. */
  lemma CornerKeys()
    ensures CellKey(0, 1) == "A1" && CellKey(9, 10) == "J10" && CellKey(25, 16) == "Z16"
  {
  }

  /** The generated keys are pairwise distinct, so they fit the `location` primary key. */
  lemma CellKeyInjective(c: nat, r: nat, c': nat, r': nat)
    requires c < |Columns| && c' < |Columns|
    requires CellKey(c, r) == CellKey(c', r')
    ensures c == c' && r == r'
  {
    var k, k' := CellKey(c, r), CellKey(c', r');
    assert k[0] == Columns[c] && k'[0] == Columns[c'];
    ColumnsDistinct(c, c');
    assert k[1..] == Decimal(r) && k'[1..] == Decimal(r');
    DecimalInjective(r, r');
  }

  /** A seeded row: only the location and the status `NA` are written, every other
      column is NULL. */
  const SeededCell: GridCell := GridCell(None, None, None, None, NA)

  /** `key` is one of the 416 keys `A1` .. `Z16`. */
  ghost predicate IsCellKey(key: Location)
  {
    exists c: nat, r: nat :: c < |Columns| && 1 <= r <= RowCount && key == CellKey(c, r)
  }

  /** Some element of a non-empty set: the next row a scan over a table visits. */
  method Pick<T>(s: set<T>) returns (x: T)
    requires s != {}
    ensures x in s
  {
    x :| x in s;
  }

  class Store {
    var dinos: map<DinoId, Dino>
    var grid: map<Location, GridCell>

    /** The store as a value, for specifications. */
    function Contents(): Db
      reads this
    {
      Db(dinos, grid)
    }

    /** A store whose tables already hold `existing` (`CREATE TABLE IF NOT EXISTS`
        keeps whatever a previous run left). */
    constructor Open(existing: Db)
      ensures Contents() == existing
    {
      dinos := existing.dinos;
      grid := existing.grid;
    }

    /** Seed the grid when it has no rows: one `NA` cell for every column letter and
        every row number 1..16.  `countFails` is an error from the `COUNT(*)` query,
        after which nothing is inserted. */
    method SeedGrid(countFails: bool)
      modifies this
      ensures dinos == old(dinos)
      ensures countFails || old(|grid|) != 0 ==> grid == old(grid)
      ensures !countFails && old(|grid|) == 0 ==>
        && |grid| == |Columns| * RowCount
        && (forall c: nat, r: nat :: c < |Columns| && 1 <= r <= RowCount ==> CellKey(c, r) in grid)
        && (forall key :: key in grid ==> IsCellKey(key) && grid[key] == SeededCell)
    {
      if countFails || |grid| != 0 {
        return;
      }
      for c := 0 to |Columns|
        invariant dinos == old(dinos)
        invariant SeededUpTo(c, 1)
      {
        SeedColumn(c);
      }
    }

    /** The cells of columns before `c`, and of column `c` in rows before `r`, are in
        the grid: exactly those, each a seeded row. */
    ghost predicate SeededUpTo(c: nat, r: nat)
      reads this
    {
      && |grid| == c * RowCount + r - 1
      && (forall c': nat, r': nat :: c' < |Columns| && 1 <= r' <= RowCount ==>
            (CellKey(c', r') in grid <==> c' < c || (c' == c && r' < r)))
      && (forall key :: key in grid ==> IsCellKey(key) && grid[key] == SeededCell)
    }

    /** The inner loop of the seeding: the 16 cells of column `c`. */
    method SeedColumn(c: nat)
      requires c < |Columns| && SeededUpTo(c, 1)
      modifies this
      ensures dinos == old(dinos)
      ensures SeededUpTo(c + 1, 1)
    {
      for r := 1 to RowCount + 1
        invariant dinos == old(dinos)
        invariant SeededUpTo(c, r)
      {
        SeedCell(c, r);
      }
    }

    /** The insert of the one seeded cell at column `c`, row `r`. */
    method SeedCell(c: nat, r: nat)
      requires c < |Columns| && 1 <= r <= RowCount && SeededUpTo(c, r)
      modifies this
      ensures dinos == old(dinos)
      ensures SeededUpTo(c, r + 1)
    {
      var key := CellKey(c, r);
      forall c': nat, r': nat | c' < |Columns| && 1 <= r' <= RowCount && CellKey(c', r') == key
        ensures c' == c && r' == r
      {
        CellKeyInjective(c', r', c, r);
      }
      assert key !in grid;
      assert IsCellKey(key);
      grid := grid[key := SeededCell];
    }
  }
}
