/** The flat employee-skill table read from the CSV file: one row per
    (employee, skill), and the pandas operations the views apply to it. */
module Table {
  import opened Common

  /** One CSV row. Every cell is a string; the gap verdicts are stored, never
      computed. */
  datatype Row = Row(
    nbk: string, name: string, email: string, role: string, functionName: string, pmIc: string,
    mgrName: string, dlName: string, dhName: string, gdlName: string,
    skillName: string, skillType: string, empSkillCategory: string,
    userProficiency: string, expectedCurrentProf: string, gapCurrent: string,
    expectedFutureProf: string, gapFuture: string)

  /** The columns the views select on, by their CSV header. */
  datatype Field = Nbk | MgrName | DlName | DhName | GdlName | GapCurrent | GapFuture

  function Get(r: Row, f: Field): string {
    match f
    case Nbk => r.nbk
    case MgrName => r.mgrName
    case DlName => r.dlName
    case DhName => r.dhName
    case GdlName => r.gdlName
    case GapCurrent => r.gapCurrent
    case GapFuture => r.gapFuture
  }

  /** The boolean mask `df[f] == v`. */
  function Is(f: Field, v: string): Row -> bool {
    (r: Row) => Get(r, f) == v
  }

  /** `df[df[f] == v]`: the rows whose column `f` holds `v`, in table order. */
  function Where(rows: seq<Row>, f: Field, v: string): (r: seq<Row>)
    ensures forall row :: row in r <==> row in rows && Get(row, f) == v
  {
    Filter(rows, Is(f, v))
  }

  /** `df[f]` as a list. */
  function Column(rows: seq<Row>, f: Field): seq<string> {
    seq(|rows|, i requires 0 <= i < |rows| => Get(rows[i], f))
  }

  lemma ColumnMember(rows: seq<Row>, f: Field, v: string)
    ensures v in Column(rows, f) <==> exists row :: row in rows && Get(row, f) == v
  {
    if v in Column(rows, f) {
      var i :| 0 <= i < |rows| && Column(rows, f)[i] == v;
      assert rows[i] in rows;
    }
    if exists row :: row in rows && Get(row, f) == v {
      var row :| row in rows && Get(row, f) == v;
      var i :| 0 <= i < |rows| && rows[i] == row;
      assert Column(rows, f)[i] == v;
    }
  }

  lemma GroupNonEmpty(rows: seq<Row>, f: Field, v: string)
    requires v in Column(rows, f)
    ensures Where(rows, f, v) != []
  {
    ColumnMember(rows, f, v);
    var row :| row in rows && Get(row, f) == v;
    assert row in Where(rows, f, v);
  }

  lemma WhereSnoc(rows: seq<Row>, x: Row, f: Field, v: string)
    ensures Where(rows + [x], f, v) == Where(rows, f, v) + (if Get(x, f) == v then [x] else [])
  {
    FilterAppend(rows, [x], Is(f, v));
    assert Filter([x], Is(f, v)) == Filter([], Is(f, v)) + (if Get(x, f) == v then [x] else []);
  }

  lemma ColumnSnoc(rows: seq<Row>, x: Row, f: Field)
    ensures Column(rows + [x], f) == Column(rows, f) + [Get(x, f)]
  {
  }

  /** The set of distinct values of column `g` among the rows whose column
      `f` holds `v`. */
  ghost function ValuesWhere(rows: seq<Row>, f: Field, v: string, g: Field): set<string> {
    set row | row in rows && Get(row, f) == v :: Get(row, g)
  }

  /** `len(df[df[f] == v][g].unique())` is the number of distinct values. */
  lemma {:induction false} DistinctCount(rows: seq<Row>, f: Field, v: string, g: Field)
    ensures |Unique(Column(Where(rows, f, v), g))| == |ValuesWhere(rows, f, v, g)|
  {
    var c := Column(Where(rows, f, v), g);
    UniqueCard(c);
    forall x ensures x in (set y | y in c) <==> x in ValuesWhere(rows, f, v, g) {
      ColumnMember(Where(rows, f, v), g, x);
    }
    assert (set y | y in c) == ValuesWhere(rows, f, v, g);
  }

  // ---------------------------------------------------------------------
  // Grouping by NBK and counting: the sum over the groups equals the count
  // over the whole table.

  /** Sum, over the given NBKs, of the number of rows of that NBK that
      satisfy `p`. */
  function GroupSum(rows: seq<Row>, ids: seq<string>, p: Row -> bool): nat
    decreases |ids|
  {
    if ids == [] then 0
    else GroupSum(rows, ids[..|ids| - 1], p) + Count(Where(rows, Nbk, ids[|ids| - 1]), p)
  }

  lemma {:induction false} GroupSumSnocRow(rows: seq<Row>, x: Row, ids: seq<string>, p: Row -> bool)
    requires NoDup(ids)
    ensures GroupSum(rows + [x], ids, p) ==
      GroupSum(rows, ids, p) + (if p(x) && x.nbk in ids then 1 else 0)
    decreases |ids|
  {
    if ids != [] {
      var init, n := ids[..|ids| - 1], ids[|ids| - 1];
      assert ids == init + [n];
      assert NoDup(init);
      assert n !in init;
      GroupSumSnocRow(rows, x, init, p);
      WhereSnoc(rows, x, Nbk, n);
      if x.nbk == n {
        CountSnoc(Where(rows, Nbk, n), x, p);
      } else {
        assert Where(rows + [x], Nbk, n) == Where(rows, Nbk, n) + [];
      }
    }
  }

  /** Each row belongs to exactly one group, so summing the per-group counts
      gives the count over the whole table. */
  lemma {:induction false} Partition(rows: seq<Row>, ids: seq<string>, p: Row -> bool)
    requires NoDup(ids)
    requires forall row :: row in rows ==> row.nbk in ids
    ensures GroupSum(rows, ids, p) == Count(rows, p)
    decreases |rows|
  {
    if rows == [] {
      GroupSumEmpty(ids, p);
    } else {
      var init, x := rows[..|rows| - 1], rows[|rows| - 1];
      assert rows == init + [x];
      Partition(init, ids, p);
      GroupSumSnocRow(init, x, ids, p);
      CountSnoc(init, x, p);
    }
  }

  lemma {:induction false} GroupSumEmpty(ids: seq<string>, p: Row -> bool)
    ensures GroupSum([], ids, p) == 0
    decreases |ids|
  {
    if ids != [] {
      GroupSumEmpty(ids[..|ids| - 1], p);
    }
  }

  /** The mask that keeps every row. */
  function AnyRow(): Row -> bool {
    (r: Row) => true
  }

  lemma CountAnyRow(rows: seq<Row>)
    ensures Count(rows, AnyRow()) == |rows|
  {
    FilterAll(rows, AnyRow());
  }
}
