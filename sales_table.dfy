/**
 The record store of the sales dashboard: one customer record per spreadsheet
 row, the table as a sequence of records in file order, and the two column
 queries the sidebar widgets are built from (the distinct values of a column,
 and the smallest and largest age).
 */
module SalesTable {

  datatype Option<T> = None | Some(value: T)

  /** One row of the spreadsheet, with its twelve columns. Decimal columns are
      mathematical reals. */
  datatype Record = Record(
    gender: string,
    city: string,
    age: int,
    netSales: real,
    itemsPurchased: int,
    discountAmount: real,
    satisfactionLevel: string,
    engagementScore: real,
    averageRating: real,
    repeatPurchaseIntent: string,
    acquisitionChannel: string,
    leadSource: string)

  /** The data frame: its rows in their original order. */
  type Table = seq<Record>

  predicate Distinct<T(==)>(s: seq<T>) {
    forall i, j :: 0 <= i < j < |s| ==> s[i] != s[j]
  }

  /** One column of the table as the sequence of its cells in row order. */
  function Column<T>(t: Table, cell: Record -> T): (c: seq<T>)
    ensures |c| == |t|
    ensures forall i :: 0 <= i < |t| ==> c[i] == cell(t[i])
  {
    seq(|t|, i requires 0 <= i < |t| => cell(t[i]))
  }

  /** The distinct values of a column (pandas `unique`): every value exactly
      once. Each value is added at its first occurrence, so the values come in
      order of first appearance. */
  function Unique(s: seq<string>): (u: seq<string>)
    ensures Distinct(u)
    ensures forall x :: x in u <==> x in s
  {
    if s == [] then []
    else
      var u := Unique(s[..|s| - 1]);
      var last := s[|s| - 1];
      assert forall x :: x in s <==> x in s[..|s| - 1] || x == last;
      if last in u then u else u + [last]
  }

  function Min(a: int, b: int): int { if a <= b then a else b }

  function Max(a: int, b: int): int { if a <= b then b else a }

  /** The smallest and the largest age, the two ends of the age slider. On an
      empty table the minimum is NaN and its conversion to an integer raises;
      that error is `None` here. */
  function AgeBounds(t: Table): (b: Option<(int, int)>)
    ensures b.None? <==> t == []
    ensures b.Some? ==> b.value.0 <= b.value.1
    ensures b.Some? ==> forall r :: r in t ==> b.value.0 <= r.age <= b.value.1
    ensures b.Some? ==> exists r :: r in t && r.age == b.value.0
    ensures b.Some? ==> exists r :: r in t && r.age == b.value.1
  {
    if t == [] then None
    else
      assert forall r :: r in t <==> r == t[0] || r in t[1..];
      match AgeBounds(t[1..])
      case None => Some((t[0].age, t[0].age))
      case Some((lo, hi)) => Some((Min(t[0].age, lo), Max(t[0].age, hi)))
  }
}
