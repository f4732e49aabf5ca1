/** A chain of calls on one builder instance. Modifiers change the state;
    terminal actions render a statement from it and leave it as it was, so
    table, field list, condition and partition carry over to every later
    call until a modifier overwrites them. Executing the statement is left
    to the database and is not modelled. */
module Session {
  import opened Wrappers
  import QB = QueryBuilder
  import ST = Statements
  import Implode

  datatype Call =
    | Table(name: string)
    | Field(fields: string)
    | Where(conds: seq<QB.Condition>)
    | WhereOr(conds: seq<QB.Condition>)
    | Partition(partition: string)
    | Select
    | Paginate(listRows: int, page: Option<int>)
    | Add(rows: seq<ST.Row>)
    | Save(updates: ST.Row)
    | Delete
  {
    predicate IsTerminal() {
      Select? || Paginate? || Add? || Save? || Delete?
    }

    predicate SetsCondition() {
      Where? || WhereOr?
    }
  }

  /** The statement a terminal action renders from the current state. */
  function Render(b: QB.Builder, c: Call): string
    requires c.IsTerminal()
  {
    match c
    case Select => ST.Select(b)
    case Paginate(n, p) => ST.Paginate(b, n, p)
    case Add(rows) => ST.Add(b, rows)
    case Save(u) => ST.Save(b, u)
    case Delete => ST.Delete(b)
  }

  /** One call: the builder afterwards and the statement issued, if any. */
  function Step(b: QB.Builder, c: Call): (r: (QB.Builder, Option<string>))
    ensures c.IsTerminal() <==> r.1.Some?
    ensures c.IsTerminal() ==> r.0 == b && r.1.value == Render(b, c)
    ensures !c.SetsCondition() ==> r.0.condition == b.condition
    ensures c.Table? ==> r.0 == QB.Table(b, c.name)
    ensures c.Field? ==> r.0 == QB.Field(b, c.fields)
    ensures c.Where? ==> r.0 == QB.Where(b, c.conds)
    ensures c.WhereOr? ==> r.0 == QB.WhereOr(b, c.conds)
    ensures c.Partition? ==> r.0 == QB.Partition(b, c.partition)
  {
    match c
    case Table(t) => (QB.Table(b, t), None)
    case Field(f) => (QB.Field(b, f), None)
    case Where(l) => (QB.Where(b, l), None)
    case WhereOr(l) => (QB.WhereOr(b, l), None)
    case Partition(p) => (QB.Partition(b, p), None)
    case _ => (b, Some(Render(b, c)))
  }

  /** The statements one step issues: none or one. */
  function Issued(out: Option<string>): seq<string> {
    if out.Some? then [out.value] else []
  }

  function CountTerminals(calls: seq<Call>): nat
    decreases |calls|
  {
    if |calls| == 0 then 0
    else (if calls[0].IsTerminal() then 1 else 0) + CountTerminals(calls[1..])
  }

  /** Runs the chain on one builder: the final state and the statements
      issued, one per terminal call, in call order. */
  function Run(b: QB.Builder, calls: seq<Call>): (r: (QB.Builder, seq<string>))
    ensures |r.1| == CountTerminals(calls)
    decreases |calls|
  {
    if |calls| == 0 then (b, [])
    else
      var step := Step(b, calls[0]);
      var rest := Run(step.0, calls[1..]);
      (rest.0, Issued(step.1) + rest.1)
  }

  /** The calls of a chain that are modifiers, in order: exactly the
      chain's own non-terminal calls, and as many as there are. */
  function Modifiers(calls: seq<Call>): (r: seq<Call>)
    ensures forall c {:trigger c in r} :: c in r <==> c in calls && !c.IsTerminal()
    ensures |r| + CountTerminals(calls) == |calls|
    decreases |calls|
  {
    if |calls| == 0 then []
    else if calls[0].IsTerminal() then Modifiers(calls[1..])
    else [calls[0]] + Modifiers(calls[1..])
  }

  /** Filtering keeps the order of the calls: the modifiers of a
      concatenation are those of the first part followed by those of the
      second. */
  lemma {:induction false} ModifiersAppend(xs: seq<Call>, ys: seq<Call>)
    ensures Modifiers(xs + ys) == Modifiers(xs) + Modifiers(ys)
    decreases |xs|
  {
    if |xs| == 0 {
      assert xs + ys == ys;
    } else {
      assert (xs + ys)[0] == xs[0];
      assert (xs + ys)[1..] == xs[1..] + ys;
      ModifiersAppend(xs[1..], ys);
    }
  }

  /** Terminal actions do not touch the state: removing every one of them
      from a chain leaves the final builder the same. */
  lemma {:induction false} RunIgnoresTerminals(b: QB.Builder, calls: seq<Call>)
    ensures Run(b, calls).0 == Run(b, Modifiers(calls)).0
    decreases |calls|
  {
    if |calls| > 0 {
      var b' := Step(b, calls[0]).0;
      if calls[0].IsTerminal() {
        RunIgnoresTerminals(b, calls[1..]);
      } else {
        RunIgnoresTerminals(b', calls[1..]);
        var m := [calls[0]] + Modifiers(calls[1..]);
        assert m[1..] == Modifiers(calls[1..]);
      }
    }
  }

  /** Running two chains one after the other on the same builder ends in
      the same state as running their concatenation. */
  lemma {:induction false} RunAppendState(b: QB.Builder, xs: seq<Call>, ys: seq<Call>)
    ensures Run(b, xs + ys).0 == Run(Run(b, xs).0, ys).0
    decreases |xs|
  {
    if |xs| > 0 {
      assert (xs + ys)[0] == xs[0];
      assert (xs + ys)[1..] == xs[1..] + ys;
      var step := Step(b, xs[0]);
      assert Run(b, xs + ys).0 == Run(step.0, xs[1..] + ys).0;
      assert Run(b, xs).0 == Run(step.0, xs[1..]).0;
      RunAppendState(step.0, xs[1..], ys);
    } else {
      assert xs + ys == ys;
    }
  }

  /** ... and issues the first chain's statements followed by the second's. */
  lemma {:induction false} RunAppendIssued(b: QB.Builder, xs: seq<Call>, ys: seq<Call>)
    ensures Run(b, xs + ys).1 == Run(b, xs).1 + Run(Run(b, xs).0, ys).1
    decreases |xs|
  {
    if |xs| > 0 {
      assert (xs + ys)[0] == xs[0];
      assert (xs + ys)[1..] == xs[1..] + ys;
      var step := Step(b, xs[0]);
      var mid := Run(step.0, xs[1..]);
      assert Run(b, xs + ys).1 == Issued(step.1) + Run(step.0, xs[1..] + ys).1;
      assert Run(b, xs) == (mid.0, Issued(step.1) + mid.1);
      RunAppendIssued(step.0, xs[1..], ys);
      Implode.AppendAssoc(Issued(step.1), mid.1, Run(mid.0, ys).1);
    } else {
      assert xs + ys == ys;
    }
  }

  /** Running two chains one after the other on the same builder is running
      their concatenation, in final state and in statements issued. */
  lemma {:induction false} RunAppend(b: QB.Builder, xs: seq<Call>, ys: seq<Call>)
    ensures var mid := Run(b, xs);
            && Run(b, xs + ys).0 == Run(mid.0, ys).0
            && Run(b, xs + ys).1 == mid.1 + Run(mid.0, ys).1
  {
    RunAppendState(b, xs, ys);
    RunAppendIssued(b, xs, ys);
  }

  /** A terminal action at the end of a chain sees the state every earlier
      call left behind, including earlier terminal actions' (untouched) one. */
  lemma TerminalSeesAccumulatedState(b: QB.Builder, calls: seq<Call>, t: Call)
    requires t.IsTerminal()
    ensures Run(b, calls + [t]).1 == Run(b, calls).1 + [Render(Run(b, Modifiers(calls)).0, t)]
  {
    RunAppend(b, calls, [t]);
    RunIgnoresTerminals(b, calls);
    var mid := Run(b, calls).0;
    assert [t][1..] == [];
    assert Run(mid, [t]).1 == Issued(Step(mid, t).1) + Run(mid, []).1;
  }

  /** Without `where`/`whereOr` calls the condition is never reset: it is
      whatever the builder held before the chain, e.g. `1=1` on a fresh one. */
  lemma {:induction false} ConditionPersists(b: QB.Builder, calls: seq<Call>)
    requires forall i :: 0 <= i < |calls| ==> !calls[i].SetsCondition()
    ensures Run(b, calls).0.condition == b.condition
    decreases |calls|
  {
    if |calls| > 0 {
      ConditionPersists(Step(b, calls[0]).0, calls[1..]);
    }
  }

  /** The same terminal call issued twice in a row renders the same
      statement twice. */
  lemma RepeatedTerminal(b: QB.Builder, t: Call)
    requires t.IsTerminal()
    ensures Run(b, [t, t]).1 == [Render(b, t), Render(b, t)]
  {
  }
}
