/** A wholly fabricated table with the columns of a reference table
    (generate_synthetic_dataset, assign2.py:30-41). */
module Synthetic {
  import opened Tables
  import opened Domains

  /** `np.random.randint(10, 100)` for a raw random draw `r`. */
  function RandInt(r: nat): (n: int)
    ensures 10 <= n < 100
  {
    10 + r % 90
  }

  /** A column fits a domain: integers in [10, 100) for the integer domain, and for the
      others text values that the domain's generator yields for some draw. */
  ghost predicate InDomain(col: Column, d: Domain, faker: (Domain, nat) -> string)
  {
    if d == SmallInt then
      col.Numbers? && forall x :: x in col.xs ==> 10.0 <= x < 100.0 && x.Floor as real == x
    else
      col.Strings? && forall v :: v in col.ss ==> exists n: nat :: v == faker(d, n)
  }

  /** The list comprehension of one column: `rows` values of the column's domain, the
      i-th produced from the draw `draw(position, i)`. */
  function GenerateColumn(name: string, position: nat, rows: nat,
                          faker: (Domain, nat) -> string, draw: (nat, nat) -> nat): (col: Column)
    ensures Length(col) == rows
    ensures InDomain(col, ColumnDomain(name), faker)
  {
    var d := ColumnDomain(name);
    if d == SmallInt then
      var xs := seq(rows, i requires 0 <= i < rows => RandInt(draw(position, i)) as real);
      assert forall x :: x in xs ==> 10.0 <= x < 100.0 && x.Floor as real == x by {
        forall x | x in xs ensures 10.0 <= x < 100.0 && x.Floor as real == x {
          var i :| 0 <= i < rows && xs[i] == x;
          var n := RandInt(draw(position, i));
          assert x == n as real;
        }
      }
      Numbers(xs)
    else
      var ss := seq(rows, i requires 0 <= i < rows => faker(d, draw(position, i)));
      assert forall v :: v in ss ==> exists n: nat :: v == faker(d, n) by {
        forall v | v in ss ensures exists n: nat :: v == faker(d, n) {
          var i :| 0 <= i < rows && ss[i] == v;
          assert v == faker(d, draw(position, i));
        }
      }
      Strings(ss)
  }

  /** Where `c` first occurs in `names`. */
  function FirstIndex(names: seq<string>, c: string): (idx: nat)
    requires c in names
    ensures idx < |names| && names[idx] == c && c !in names[..idx]
  {
    if names[0] == c then 0
    else
      var idx := 1 + FirstIndex(names[1..], c);
      assert names[..idx] == [names[0]] + names[1..][..idx - 1];
      idx
  }

  /** A position holding `c` with no `c` before it is the first index of `c`. */
  lemma FirstIndexUnique(names: seq<string>, c: string, p: nat)
    requires p < |names| && names[p] == c && c !in names[..p]
    ensures FirstIndex(names, c) == p
  {
  }

  /** A name occurring in a prefix first occurs at the same place in the whole. */
  lemma FirstIndexInPrefix(names: seq<string>, n: nat, c: string)
    requires n <= |names| && c in names[..n]
    ensures c in names && FirstIndex(names, c) == FirstIndex(names[..n], c)
  {
    var p := FirstIndex(names[..n], c);
    assert names[..n][..p] == names[..p];
    FirstIndexUnique(names, c, p);
  }

  /** The names of `names` in order of first occurrence: the key order of a dict
      that is assigned `names` in turn. */
  function FirstOccurrences(names: seq<string>): (r: seq<string>)
    ensures Distinct(r)
    ensures forall c :: c in r <==> c in names
    ensures Distinct(names) ==> r == names
  {
    if names == [] then []
    else
      var n := |names| - 1;
      var init := FirstOccurrences(names[..n]);
      var last := names[n];
      assert forall c :: c in names <==> c in names[..n] || c == last;
      var r := if last in init then init else init + [last];
      assert Distinct(names) ==> r == names by {
        if Distinct(names) {
          assert Distinct(names[..n]);
          assert last !in names[..n];
          assert names == names[..n] + [last];
        }
      }
      r
  }

  /** Every name of `r` occurs in `names`, and `r` lists them by where they first occur. */
  ghost predicate InFirstOccurrenceOrder(names: seq<string>, r: seq<string>)
  {
    forall i, j :: 0 <= i < j < |r| ==>
      r[i] in names && r[j] in names && FirstIndex(names, r[i]) < FirstIndex(names, r[j])
  }

  /** The dict's keys come out ordered by where each name first occurs. */
  lemma {:induction false} FirstOccurrencesInOrder(names: seq<string>)
    ensures InFirstOccurrenceOrder(names, FirstOccurrences(names))
  {
    if names != [] {
      var n := |names| - 1;
      var init := FirstOccurrences(names[..n]);
      FirstOccurrencesInOrder(names[..n]);
      forall i | 0 <= i < |init| ensures init[i] in names[..n] {
        assert init[i] in init;
      }
      FirstOccurrencesOrderStep(names, init);
    }
  }

  /** Adding the last name keeps the first-occurrence order. */
  lemma FirstOccurrencesOrderStep(names: seq<string>, init: seq<string>)
    requires names != []
    requires forall i :: 0 <= i < |init| ==> init[i] in names[..|names| - 1]
    requires forall c :: c in names[..|names| - 1] ==> c in init
    requires InFirstOccurrenceOrder(names[..|names| - 1], init)
    ensures var last := names[|names| - 1];
      InFirstOccurrenceOrder(names, if last in init then init else init + [last])
  {
    var n := |names| - 1;
    var last := names[n];
    forall i | 0 <= i < |init|
      ensures init[i] in names[..n] && init[i] in names && FirstIndex(names, init[i]) == FirstIndex(names[..n], init[i])
    {
      FirstIndexInPrefix(names, n, init[i]);
    }
    if last !in init {
      FirstIndexUnique(names, last, n);
    }
  }

  /** generate_synthetic_dataset(columns, rows): the dict `data` is filled column by
      column; a repeated name is filled again and keeps its first position. A negative
      row count gives empty columns, as `range` does, and no columns give no rows. */
  method GenerateSyntheticDataset(columns: seq<string>, rows: int,
                                  faker: (Domain, nat) -> string, draw: (nat, nat) -> nat)
    returns (t: Table)
    ensures WellFormed(t)
    ensures t.columns == FirstOccurrences(columns)
    ensures forall c :: c in t.cells <==> c in columns
    ensures t.rows == if |columns| == 0 || rows < 0 then 0 else rows
    ensures forall c :: c in t.cells ==> InDomain(t.cells[c], ColumnDomain(c), faker)
    ensures forall j :: 0 <= j < |columns| && columns[j] !in columns[j + 1..] ==>
      t.cells[columns[j]] == GenerateColumn(columns[j], j, t.rows, faker, draw)
  {
    var n: nat := if rows < 0 then 0 else rows;
    var data: map<string, Column> := map[];
    var order: seq<string> := [];
    for j := 0 to |columns|
      invariant Filled(columns, j, order, data, n, faker, draw)
    {
      var col := columns[j];
      var generated := GenerateColumn(col, j, n, faker, draw);
      ghost var before, beforeOrder := data, order;
      if col !in data {
        order := order + [col];
      }
      data := data[col := generated];
      FillStep(columns, j, beforeOrder, before, order, data, n, faker, draw);
    }
    assert columns[..|columns|] == columns;
    t := Table(order, data, if |columns| == 0 then 0 else n);
    LastOccurrencesKept(columns, data, n, faker, draw);
  }

  /** The state of generate_synthetic_dataset after the first `j` columns: `order` is
      the dict's key order, every name seen so far has a column of the right length and
      domain, and a name not repeated since holds the column generated for it last. */
  ghost predicate Filled(columns: seq<string>, j: nat, order: seq<string>,
                         data: map<string, Column>, n: nat,
                         faker: (Domain, nat) -> string, draw: (nat, nat) -> nat)
    requires j <= |columns|
  {
    && order == FirstOccurrences(columns[..j])
    && (forall c :: c in data <==> c in columns[..j])
    && (forall c :: c in data ==> Length(data[c]) == n && InDomain(data[c], ColumnDomain(c), faker))
    && (forall m {:trigger data[columns[m]]} :: 0 <= m < j && columns[m] !in columns[m + 1..j] ==>
          data[columns[m]] == GenerateColumn(columns[m], m, n, faker, draw))
  }

  lemma FillStep(columns: seq<string>, j: nat, order: seq<string>, data: map<string, Column>,
                 order': seq<string>, data': map<string, Column>, n: nat,
                 faker: (Domain, nat) -> string, draw: (nat, nat) -> nat)
    requires j < |columns| && Filled(columns, j, order, data, n, faker, draw)
    requires order' == if columns[j] in data then order else order + [columns[j]]
    requires data' == data[columns[j] := GenerateColumn(columns[j], j, n, faker, draw)]
    ensures Filled(columns, j + 1, order', data', n, faker, draw)
  {
    OrderStep(columns, j, order, data, order');
    ColumnsInDomainStep(data, columns[j], GenerateColumn(columns[j], j, n, faker, draw), n, faker);
    LastOccurrenceStep(columns, j, data, data', n, faker, draw);
  }

  lemma OrderStep(columns: seq<string>, j: nat, order: seq<string>, data: map<string, Column>, order': seq<string>)
    requires j < |columns| && order == FirstOccurrences(columns[..j])
    requires forall c :: c in data <==> c in columns[..j]
    requires order' == if columns[j] in data then order else order + [columns[j]]
    ensures order' == FirstOccurrences(columns[..j + 1])
  {
    FirstOccurrencesStep(columns, j);
    assert columns[j] in data <==> columns[j] in order;
  }

  lemma ColumnsInDomainStep(data: map<string, Column>, col: string, values: Column, n: nat,
                            faker: (Domain, nat) -> string)
    requires forall c :: c in data ==> Length(data[c]) == n && InDomain(data[c], ColumnDomain(c), faker)
    requires Length(values) == n && InDomain(values, ColumnDomain(col), faker)
    ensures var data' := data[col := values];
      forall c :: c in data' ==> Length(data'[c]) == n && InDomain(data'[c], ColumnDomain(c), faker)
  {
  }

  lemma FirstOccurrencesStep(columns: seq<string>, j: nat)
    requires j < |columns|
    ensures FirstOccurrences(columns[..j + 1]) ==
      if columns[j] in FirstOccurrences(columns[..j]) then FirstOccurrences(columns[..j])
      else FirstOccurrences(columns[..j]) + [columns[j]]
  {
    assert columns[..j + 1][..j] == columns[..j];
  }

  lemma LastOccurrencesKept(columns: seq<string>, data: map<string, Column>, n: nat,
                            faker: (Domain, nat) -> string, draw: (nat, nat) -> nat)
    requires forall c :: c in columns ==> c in data
    requires forall m {:trigger data[columns[m]]} :: 0 <= m < |columns| && columns[m] !in columns[m + 1..|columns|] ==>
      data[columns[m]] == GenerateColumn(columns[m], m, n, faker, draw)
    ensures forall j :: 0 <= j < |columns| && columns[j] !in columns[j + 1..] ==>
      columns[j] in data && data[columns[j]] == GenerateColumn(columns[j], j, n, faker, draw)
  {
    forall j | 0 <= j < |columns| && columns[j] !in columns[j + 1..]
      ensures data[columns[j]] == GenerateColumn(columns[j], j, n, faker, draw)
    {
      assert columns[j + 1..|columns|] == columns[j + 1..];
    }
  }

  lemma LastOccurrenceStep(columns: seq<string>, j: nat, before: map<string, Column>,
                           after: map<string, Column>, n: nat,
                           faker: (Domain, nat) -> string, draw: (nat, nat) -> nat)
    requires j < |columns|
    requires after == before[columns[j] := GenerateColumn(columns[j], j, n, faker, draw)]
    requires forall m {:trigger before[columns[m]]} :: 0 <= m < j && columns[m] !in columns[m + 1..j] ==>
      columns[m] in before && before[columns[m]] == GenerateColumn(columns[m], m, n, faker, draw)
    ensures forall m {:trigger after[columns[m]]} :: 0 <= m < j + 1 && columns[m] !in columns[m + 1..j + 1] ==>
      columns[m] in after && after[columns[m]] == GenerateColumn(columns[m], m, n, faker, draw)
  {
    forall m | 0 <= m < j + 1 && columns[m] !in columns[m + 1..j + 1]
      ensures columns[m] in after && after[columns[m]] == GenerateColumn(columns[m], m, n, faker, draw)
    {
      if m < j {
        assert columns[m + 1..j + 1] == columns[m + 1..j] + [columns[j]];
        assert columns[m] != columns[j];
      }
    }
  }

  /** A zero row count gives the listed columns with no values. */
  lemma ZeroRows(t: Table, columns: seq<string>)
    requires WellFormed(t) && t.rows == 0
    requires forall c :: c in t.cells <==> c in columns
    ensures forall c :: c in columns ==> Length(t.cells[c]) == 0
  {
  }
}
