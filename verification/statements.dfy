/** The SQL text built by the five terminal actions `select`, `paginate`,
    `add`, `save` and `delete`. Each is plain concatenation over the
    builder's state; values are quoted but never escaped, and PHP null
    concatenates as the empty string. Rendering reads the builder only. */
module Statements {
  import opened Wrappers
  import opened Implode
  import opened Decimal
  import opened QueryBuilder

  /** One associative row: column name to value, in insertion order. */
  type Row = seq<(string, string)>

  const DefaultListRows: int := 10

  /** The table slot as it appears in SQL text (null renders empty). */
  function TableName(b: Builder): (t: string)
    ensures b.table.Some? ==> t == b.table.value
    ensures b.table.None? ==> t == ""
  {
    b.table.GetOr("")
  }

  function Select(b: Builder): (sql: string)
    ensures |sql| == 20 + |b.field| + |TableName(b)| + |b.condition|
  {
    "SELECT " + b.field + " FROM " + TableName(b) + " WHERE " + b.condition
  }

  /** The page number: a supplied page below 1 is raised to 1, a missing one
      is 1. */
  function CurrentPage(requested: Option<int>): (page: int)
    ensures page >= 1
    ensures requested.Some? && requested.value >= 1 ==> page == requested.value
    ensures requested.None? || requested.value < 1 ==> page == 1
  {
    match requested
    case None => 1
    case Some(p) => if 1 < p then p else 1
  }

  /** Number of rows skipped before the given page. */
  function Offset(page: int, listRows: int): (offset: int)
    ensures page >= 1 && listRows >= 0 ==> offset >= 0
    ensures page == 1 ==> offset == 0
  {
    (page - 1) * listRows
  }

  function Paginate(b: Builder, listRows: int, requested: Option<int>): (sql: string)
    ensures |sql| == |Select(b)| + 15 + |IntToString(listRows)|
                     + |IntToString(Offset(CurrentPage(requested), listRows))|
  {
    Select(b) + " LIMIT " + IntToString(listRows)
      + " OFFSET " + IntToString(Offset(CurrentPage(requested), listRows))
  }

  function Keys(row: Row): (r: seq<string>)
    ensures |r| == |row| && forall i :: 0 <= i < |row| ==> r[i] == row[i].0
  {
    seq(|row|, i requires 0 <= i < |row| => row[i].0)
  }

  function Values(row: Row): (r: seq<string>)
    ensures |r| == |row| && forall i :: 0 <= i < |row| ==> r[i] == row[i].1
  {
    seq(|row|, i requires 0 <= i < |row| => row[i].1)
  }

  /** One VALUES tuple: `('v1','v2',...)`, single quotes, nothing escaped. */
  function Tuple(row: Row): (r: string)
    ensures StartsWith(r, "('") && EndsWith(r, "')")
    ensures |r| == 4 + |Join("','", Values(row))| && r[2..|r| - 2] == Join("','", Values(row))
  {
    "('" + Join("','", Values(row)) + "')"
  }

  function Tuples(rows: seq<Row>): (r: seq<string>)
    ensures |r| == |rows| && forall i :: 0 <= i < |rows| ==> r[i] == Tuple(rows[i])
  {
    seq(|rows|, i requires 0 <= i < |rows| => Tuple(rows[i]))
  }

  /** The column list of an insert: the keys of the first row only. With no
      rows at all, `$data[0]` is undefined and PHP 7 renders its keys as
      null, that is as the empty string. */
  function ColumnList(rows: seq<Row>): (cols: string)
    ensures |rows| > 0 ==> cols == Join(",", Keys(rows[0]))
    ensures |rows| == 0 ==> cols == ""
  {
    if |rows| == 0 then "" else Join(",", Keys(rows[0]))
  }

  /** The column list, then one VALUES tuple per row, in row order. */
  function Add(b: Builder, rows: seq<Row>): (sql: string)
    ensures |sql| == 23 + |TableName(b)| + |ColumnList(rows)| + |Join(",", Tuples(rows))|
  {
    "INSERT INTO " + TableName(b) + " (" + ColumnList(rows) + ") VALUES "
      + Join(",", Tuples(rows))
  }

  /** One assignment of an update: `k = 'v'`. */
  function Assignment(kv: (string, string)): (r: string)
    ensures StartsWith(r, kv.0 + " = '") && EndsWith(r, kv.1 + "'")
  {
    kv.0 + " = '" + kv.1 + "'"
  }

  function Assignments(updates: Row): (r: seq<string>)
    ensures |r| == |updates| && forall i :: 0 <= i < |updates| ==> r[i] == Assignment(updates[i])
  {
    seq(|updates|, i requires 0 <= i < |updates| => Assignment(updates[i]))
  }

  /** Note the two spaces before WHERE, as in the source. */
  function Save(b: Builder, updates: Row): (sql: string)
    ensures |sql| == 20 + |TableName(b)| + |Join(",", Assignments(updates))| + |b.condition|
  {
    "UPDATE " + TableName(b) + " SET " + Join(",", Assignments(updates))
      + ("  WHERE " + b.condition)
  }

  /** The PARTITION clause is emitted whether or not a partition was set. */
  function Delete(b: Builder): (sql: string)
    ensures |sql| == 33 + |TableName(b)| + |b.partition.GetOr("")| + |b.condition|
  {
    "DELETE FROM " + TableName(b) + " PARTITION (" + b.partition.GetOr("")
      + ")  WHERE " + b.condition
  }

  // ---------------------------------------------------------------------
  // select

  /** The statement a chain `table(t)->field(f)->where(L)->select()` on a
      fresh builder renders; without `field` and `where` it is `SELECT * ...
      WHERE 1=1`. */
  lemma SelectAfterChain(t: string, f: string, conds: seq<Condition>)
    ensures Select(Where(Field(Table(New(), t), f), conds))
         == "SELECT " + f + " FROM " + t + " WHERE " + AndJoin(conds)
    ensures Select(Table(New(), t)) == "SELECT * FROM " + t + " WHERE 1=1"
  {
  }

  /** The condition is the tail of the statement: whatever the field list and
      table, what follows the last " WHERE " the builder wrote is the
      condition. */
  lemma SelectEndsWithCondition(b: Builder)
    ensures |Select(b)| >= |" WHERE " + b.condition|
    ensures Select(b)[|Select(b)| - |" WHERE " + b.condition|..] == " WHERE " + b.condition
  {
  }

  /** A select reads neither the partition slot nor any value a terminal
      action is passed. */
  lemma SelectIgnoresPartition(b: Builder, p: string)
    ensures Select(Partition(b, p)) == Select(b)
  {
  }

  // ---------------------------------------------------------------------
  // paginate

  /** Consecutive pages are adjacent windows of `listRows` rows. */
  lemma OffsetNextPage(page: int, listRows: int)
    ensures Offset(page + 1, listRows) == Offset(page, listRows) + listRows
  {
  }

  /** Page 1 (also the default and every page below 1) starts at offset 0. */
  lemma PaginateFirstPage(b: Builder, listRows: int, p: int)
    requires p <= 1
    ensures Paginate(b, listRows, Some(p)) == Paginate(b, listRows, None)
    ensures Paginate(b, listRows, None) == Select(b) + " LIMIT " + IntToString(listRows) + " OFFSET 0"
  {
  }

  /** Page 3 starts at offset 2*listRows. */
  lemma PaginateThirdPage(b: Builder, listRows: int)
    ensures Paginate(b, listRows, Some(3))
         == Select(b) + " LIMIT " + IntToString(listRows) + " OFFSET " + IntToString(2 * listRows)
  {
  }

  /** With the default page size and no page given: `LIMIT 10 OFFSET 0`. */
  lemma PaginateDefault(b: Builder)
    ensures Paginate(b, DefaultListRows, None) == Select(b) + " LIMIT 10 OFFSET 0"
  {
  }

  /** The paginated statement is the select followed by the window; the
      numbers in it read back as the page size and the offset. */
  lemma PaginateExtendsSelect(b: Builder, listRows: int, requested: Option<int>)
    ensures var sql := Paginate(b, listRows, requested);
            var lim := IntToString(listRows);
            var n := |Select(b) + " LIMIT "|;
            && sql[..|Select(b)|] == Select(b)
            && sql[n..n + |lim|] == lim
            && ParseInt(sql[n..n + |lim|]) == Some(listRows)
            && sql[n + |lim| + |" OFFSET "|..] == IntToString(Offset(CurrentPage(requested), listRows))
  {
    var sel, lim := Select(b), IntToString(listRows);
    var off := IntToString(Offset(CurrentPage(requested), listRows));
    var sql := Paginate(b, listRows, requested);
    var head := sel + " LIMIT ";
    var upToLim := head + lim;
    var upToOff := upToLim + " OFFSET ";
    assert sql == upToOff + off;
    assert sql[|upToOff|..] == off;
    assert sql[..|upToLim|] == upToLim;
    assert sql[|head|..|upToLim|] == lim;
    assert sql[..|sel|] == sel;
    IntRoundTrip(listRows);
  }

  /** With a positive page size, distinct pages start at distinct offsets. */
  lemma OffsetInjective(p: int, q: int, listRows: int)
    requires listRows > 0 && p != q
    ensures Offset(p, listRows) != Offset(q, listRows)
  {
  }

  /** With a positive page size, distinct pages render distinct statements. */
  lemma PaginateDistinctPages(b: Builder, listRows: int, p: int, q: int)
    requires listRows > 0 && 1 <= p && 1 <= q && p != q
    ensures Paginate(b, listRows, Some(p)) != Paginate(b, listRows, Some(q))
  {
    var prefix := Select(b) + " LIMIT " + IntToString(listRows) + " OFFSET ";
    var sp := IntToString(Offset(p, listRows));
    var sq := IntToString(Offset(q, listRows));
    assert Paginate(b, listRows, Some(p)) == prefix + sp;
    assert Paginate(b, listRows, Some(q)) == prefix + sq;
    OffsetInjective(p, q, listRows);
    if prefix + sp == prefix + sq {
      assert (prefix + sp)[|prefix|..] == sp;
      assert (prefix + sq)[|prefix|..] == sq;
      IntToStringInjective(Offset(p, listRows), Offset(q, listRows));
      assert false;
    }
  }

  // ---------------------------------------------------------------------
  // add

  /** Tuples read only the values of each row, never its keys. */
  lemma TuplesReadValuesOnly(rows: seq<Row>, rows': seq<Row>)
    requires |rows| == |rows'|
    requires forall i :: 0 <= i < |rows| ==> Values(rows[i]) == Values(rows'[i])
    ensures Tuples(rows) == Tuples(rows')
  {
  }

  /** The column list comes from the first row alone: the keys of later rows
      (even if they differ) do not change the statement. */
  lemma AddColumnsFromFirstRow(b: Builder, rows: seq<Row>, rows': seq<Row>)
    requires |rows| > 0 && |rows| == |rows'|
    requires Keys(rows[0]) == Keys(rows'[0])
    requires forall i :: 0 <= i < |rows| ==> Values(rows[i]) == Values(rows'[i])
    ensures Add(b, rows) == Add(b, rows')
  {
    TuplesReadValuesOnly(rows, rows');
  }

  /** Adding a row to the input appends exactly one tuple, after the others:
      the statement holds one tuple per row, in row order. */
  lemma AddAppendsTuple(b: Builder, rows: seq<Row>, row: Row)
    requires |rows| > 0
    ensures Add(b, rows + [row]) == Add(b, rows) + "," + Tuple(row)
  {
    var head := "INSERT INTO " + TableName(b) + " (" + ColumnList(rows) + ") VALUES ";
    var prior := Join(",", Tuples(rows));
    assert (rows + [row])[0] == rows[0];
    assert Tuples(rows + [row]) == Tuples(rows) + [Tuple(row)];
    JoinSnoc(",", Tuples(rows), Tuple(row));
    AppendAssoc(head, prior + ",", Tuple(row));
    AppendAssoc(head, prior, ",");
  }

  /** With no rows the source reads the never-assigned `$data[0]`; under
      PHP 7 that is null and both lists render empty. */
  lemma AddNoRows(b: Builder)
    ensures Add(b, []) == "INSERT INTO " + TableName(b) + " () VALUES "
  {
  }

  /** A single row renders one tuple. */
  lemma AddSingleRow(b: Builder, row: Row)
    ensures Add(b, [row]) == "INSERT INTO " + TableName(b) + " (" + Join(",", Keys(row))
                             + ") VALUES ('" + Join("','", Values(row)) + "')"
  {
  }

  /** When no key contains a comma, the column list names exactly the keys of
      the first row, in order. */
  lemma AddColumnsRecoverable(rows: seq<Row>)
    requires |rows| > 0 && |rows[0]| > 0
    requires forall i :: 0 <= i < |rows[0]| ==> ',' !in rows[0][i].0
    ensures Split(ColumnList(rows), ',') == Keys(rows[0])
  {
    SplitJoin(Keys(rows[0]), ',');
  }

  /** Rendering ignores the condition, the field list and the partition. */
  lemma AddReadsTableOnly(b: Builder, rows: seq<Row>, conds: seq<Condition>, f: string, p: string)
    ensures Add(Partition(Field(Where(b, conds), f), p), rows) == Add(b, rows)
  {
  }

  /** The source's nested loops: collect each row's keys and values, build
      one tuple per row, then implode. */
  method AddByLoop(b: Builder, rows: seq<Row>) returns (sql: string)
    ensures sql == Add(b, rows)
  {
    var valData: seq<string> := [];
    var firstKeys: seq<string> := [];
    for k := 0 to |rows|
      invariant valData == Tuples(rows[..k])
      invariant k == 0 ==> firstKeys == []
      invariant k > 0 ==> firstKeys == Keys(rows[0])
    {
      var keys: seq<string> := [];
      var vals: seq<string> := [];
      for j := 0 to |rows[k]|
        invariant keys == Keys(rows[k][..j])
        invariant vals == Values(rows[k][..j])
      {
        keys := keys + [rows[k][j].0];
        vals := vals + [rows[k][j].1];
      }
      assert rows[k][..|rows[k]|] == rows[k];
      if k == 0 {
        firstKeys := keys;
      }
      valData := valData + ["('" + Join("','", vals) + "')"];
    }
    assert rows[..|rows|] == rows;
    sql := "INSERT INTO " + TableName(b) + " (" + Join(",", firstKeys) + ") VALUES "
      + Join(",", valData);
  }

  // ---------------------------------------------------------------------
  // save

  /** An update uses the current condition unchanged: with no `where` call it
      ends in `WHERE 1=1` and so touches every row; after `where(L)` it ends
      in `WHERE` followed by the AND-join of L. */
  lemma SaveUsesCurrentCondition(t: string, updates: Row, conds: seq<Condition>)
    ensures EndsWith(Save(Table(New(), t), updates), "  WHERE 1=1")
    ensures EndsWith(Save(Where(Table(New(), t), conds), updates), "  WHERE " + AndJoin(conds))
  {
  }

  /** Once the update list is non-empty, one more pair adds one more
      `,k = 'v'` to the SET list, after the others (a first pair adds no
      comma). */
  lemma SaveAppendsAssignment(b: Builder, updates: Row, k: string, v: string)
    requires |updates| > 0
    ensures Save(b, updates + [(k, v)])
         == "UPDATE " + TableName(b) + " SET "
            + (Join(",", Assignments(updates)) + "," + (k + " = '" + v + "'"))
            + ("  WHERE " + b.condition)
  {
    var a := Assignment((k, v));
    assert Assignments(updates + [(k, v)]) == Assignments(updates) + [a];
    JoinSnoc(",", Assignments(updates), a);
  }

  /** The source's loop: one `k = 'v'` per pair, then implode with ",". */
  method SaveByLoop(b: Builder, updates: Row) returns (sql: string)
    ensures sql == Save(b, updates)
  {
    var data: seq<string> := [];
    for k := 0 to |updates|
      invariant data == Assignments(updates[..k])
    {
      data := data + [updates[k].0 + " = '" + updates[k].1 + "'"];
    }
    assert updates[..|updates|] == updates;
    sql := "UPDATE " + TableName(b) + " SET " + Join(",", data) + "  WHERE " + b.condition;
  }

  // ---------------------------------------------------------------------
  // delete

  /** Without a `partition` call the statement still carries an empty
      `PARTITION ()` clause; with one, the name appears between the
      parentheses. */
  lemma DeletePartitionClause(b: Builder, p: string)
    ensures b.partition.None? ==>
      Delete(b) == "DELETE FROM " + TableName(b) + " PARTITION ()  WHERE " + b.condition
    ensures Delete(Partition(b, p))
         == "DELETE FROM " + TableName(b) + " PARTITION (" + p + ")  WHERE " + b.condition
  {
  }

  /** The partition name reads back from the statement: after the fixed
      opening `DELETE FROM <table> PARTITION (`, the text up to the first `)`
      is the partition (empty when unset) and the rest is `  WHERE` and the
      condition, provided the name holds no `)`. */
  lemma DeletePartitionRecoverable(b: Builder)
    requires ')' !in b.partition.GetOr("")
    ensures var head := "DELETE FROM " + TableName(b) + " PARTITION (";
            var sql := Delete(b);
            && StartsWith(sql, head)
            && SplitOnce(sql[|head|..], ')') == Some((b.partition.GetOr(""), "  WHERE " + b.condition))
  {
    var head := "DELETE FROM " + TableName(b) + " PARTITION (";
    var p := b.partition.GetOr("");
    var tail := "  WHERE " + b.condition;
    assert Delete(b) == head + (p + [')'] + tail);
    assert Delete(b)[|head|..] == p + [')'] + tail;
    SplitOnceAfterPiece(p, ')', tail);
  }

  /** A delete ignores the field list. */
  lemma DeleteIgnoresField(b: Builder, f: string)
    ensures Delete(Field(b, f)) == Delete(b)
  {
  }
}
