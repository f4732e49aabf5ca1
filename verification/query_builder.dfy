/** The state of one query builder instance (the PHP class's `table`,
    `field`, `where` and `partition` properties) and the chainable modifiers
    that overwrite it. Every modifier returns the updated state instead of
    mutating an object. */
module QueryBuilder {
  import opened Wrappers
  import opened Implode

  /** `table` and `partition` start out as PHP null (None); `condition` is
      the property the source calls `where`. */
  datatype Builder = Builder(
    table: Option<string>,
    field: string,
    condition: string,
    partition: Option<string>)

  const DefaultField: string := "*"
  const DefaultCondition: string := "1=1"

  /** A builder as construction leaves it: every column, an always-true
      condition, neither a table nor a partition. */
  function New(): (b: Builder)
    ensures b.field == "*" && b.condition == "1=1"
    ensures b.table == None && b.partition == None
  {
    Builder(None, DefaultField, DefaultCondition, None)
  }

  /** One `[column, operator, value]` entry of a condition list. */
  datatype Condition = Condition(column: string, op: string, value: string)

  function Table(b: Builder, name: string): (r: Builder)
    ensures r.table == Some(name)
    ensures r.field == b.field && r.condition == b.condition && r.partition == b.partition
  {
    b.(table := Some(name))
  }

  function Field(b: Builder, fields: string): (r: Builder)
    ensures r.field == fields
    ensures r.table == b.table && r.condition == b.condition && r.partition == b.partition
  {
    b.(field := fields)
  }

  function Partition(b: Builder, name: string): (r: Builder)
    ensures r.partition == Some(name)
    ensures r.table == b.table && r.field == b.field && r.condition == b.condition
  {
    b.(partition := Some(name))
  }

  /** A condition as `column op "value"`: the value goes between double
      quotes and is not escaped. */
  function RenderCondition(c: Condition): (r: string)
    ensures StartsWith(r, c.column + " " + c.op + " ")
    ensures EndsWith(r, "\"" + c.value + "\"")
  {
    c.column + " " + (c.op + " " + ("\"" + c.value + "\""))
  }

  function RenderConditions(conds: seq<Condition>): (r: seq<string>)
    ensures |r| == |conds|
    ensures forall i :: 0 <= i < |conds| ==> r[i] == RenderCondition(conds[i])
  {
    seq(|conds|, i requires 0 <= i < |conds| => RenderCondition(conds[i]))
  }

  /** The rendered conditions in input order, joined by " AND ". */
  function AndJoin(conds: seq<Condition>): (r: string)
    ensures conds == [] ==> r == ""
    ensures |conds| == 1 ==> r == RenderCondition(conds[0])
  {
    Join(" AND ", RenderConditions(conds))
  }

  /** Replaces the condition; the previous one is discarded. */
  function Where(b: Builder, conds: seq<Condition>): (r: Builder)
    ensures r.condition == AndJoin(conds)
    ensures r.table == b.table && r.field == b.field && r.partition == b.partition
  {
    b.(condition := AndJoin(conds))
  }

  /** Appends ` OR (<conds joined by AND>)` to the existing condition. */
  function WhereOr(b: Builder, conds: seq<Condition>): (r: Builder)
    ensures r.condition == b.condition + " OR (" + AndJoin(conds) + ")"
    ensures r.table == b.table && r.field == b.field && r.partition == b.partition
  {
    b.(condition := b.condition + " OR (" + AndJoin(conds) + ")")
  }

  /** A later call to the same setter wins; the earlier value leaves no trace. */
  lemma SettersOverwrite(b: Builder, x: string, y: string)
    ensures Table(Table(b, x), y) == Table(b, y)
    ensures Field(Field(b, x), y) == Field(b, y)
    ensures Partition(Partition(b, x), y) == Partition(b, y)
  {
  }

  /** Setters of different slots commute. */
  lemma SettersCommute(b: Builder, t: string, f: string, p: string)
    ensures Field(Table(b, t), f) == Table(Field(b, f), t)
    ensures Partition(Table(b, t), p) == Table(Partition(b, p), t)
    ensures Partition(Field(b, f), p) == Field(Partition(b, p), f)
  {
  }

  /** `where` does not depend on the condition it replaces, and an empty list
      leaves an empty condition. */
  lemma WhereForgetsPrior(b1: Builder, b2: Builder, conds: seq<Condition>)
    ensures Where(b1, conds).condition == Where(b2, conds).condition
    ensures conds == [] ==> Where(b1, conds).condition == ""
  {
  }

  /** The existing condition survives `whereOr` as a prefix. */
  lemma WhereOrExtends(b: Builder, conds: seq<Condition>)
    ensures |b.condition| < |WhereOr(b, conds).condition|
    ensures WhereOr(b, conds).condition[..|b.condition|] == b.condition
  {
  }

  /** `where(A)` then `whereOr(B)` yields `A-join OR (B-join)`, whatever came
      before. */
  lemma WhereThenWhereOr(b: Builder, a: seq<Condition>, c: seq<Condition>)
    ensures WhereOr(Where(b, a), c).condition == AndJoin(a) + " OR (" + AndJoin(c) + ")"
  {
  }

  /** A condition list split in two renders as the two halves joined by AND:
      the order of the triples is kept. */
  lemma AndJoinConcat(a: seq<Condition>, c: seq<Condition>)
    requires |a| > 0 && |c| > 0
    ensures AndJoin(a + c) == AndJoin(a) + " AND " + AndJoin(c)
  {
    assert RenderConditions(a + c) == RenderConditions(a) + RenderConditions(c);
    JoinConcat(" AND ", RenderConditions(a), RenderConditions(c));
  }

  /** Each triple can be read back from its rendering when neither column nor
      operator contains a space; the value may hold anything, quotes included. */
  function ParseCondition(s: string): Option<Condition> {
    match SplitOnce(s, ' ')
    case None => None
    case Some((column, rest)) =>
      match SplitOnce(rest, ' ')
      case None => None
      case Some((op, quoted)) =>
        if |quoted| >= 2 && quoted[0] == '"' && quoted[|quoted| - 1] == '"' then
          Some(Condition(column, op, quoted[1..|quoted| - 1]))
        else None
  }

  lemma RenderConditionRoundTrip(c: Condition)
    requires ' ' !in c.column && ' ' !in c.op
    ensures ParseCondition(RenderCondition(c)) == Some(c)
  {
    var quoted := "\"" + c.value + "\"";
    var rest := c.op + " " + quoted;
    SplitOnceAfterPiece(c.column, ' ', rest);
    SplitOnceAfterPiece(c.op, ' ', quoted);
    assert quoted[1..|quoted| - 1] == c.value;
  }

  /** Without the no-space proviso rendering is not injective: nothing is
      escaped, so a column name can absorb the operator. */
  lemma RenderConditionAmbiguous()
    ensures RenderCondition(Condition("a =", "=", "x")) == RenderCondition(Condition("a", "= =", "x"))
  {
  }

  /** The source's loop: rewrite each entry in place, then implode with " AND ". */
  method WhereByLoop(conds: seq<Condition>) returns (condition: string)
    ensures condition == AndJoin(conds)
  {
    var rendered: seq<string> := [];
    for k := 0 to |conds|
      invariant rendered == RenderConditions(conds[..k])
    {
      rendered := rendered + [RenderCondition(conds[k])];
    }
    assert conds[..|conds|] == conds;
    condition := Join(" AND ", rendered);
  }
}
