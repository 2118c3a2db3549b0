/** `generate_chart` (src/tools/chart_generator.py): the reply of the language model is turned
    into chart requests, each request's query is run on the shared connection, and a chart
    result is kept for each request whose data can be charted, in request order.
    The model's reply, the JSON decoder, whether the connection opens, the query runner and the
    date parser are all parameters. */
module ChartGenerator {
  import opened Wrappers
  import opened Strings
  import opened JsonValues
  import opened SpecParser
  import opened Columns
  import opened ChartKinds

  /** `pd.read_sql(query, conn)`: a result table, or an exception. */
  datatype QueryResult = Rows(table: Table) | QueryError

  /** One entry of the returned list. The plotly figure is represented by what it is built from:
      its kind and its two axes (its title is `title`). */
  datatype ChartResult = ChartResult(title: Json, kind: ChartKind, x: string, y: string, sql: string, frame: Table)

  /** The three fields read from one request, after their defaults. */
  datatype Request = Request(sql: string, chartType: string, title: Json)

  const DefaultSql := ""
  const DefaultChartType := "bar"
  const DefaultTitle := "Visualização"

  /** Lines 69-71. `None` stands for the exception Python raises when the request is not a
      dictionary or when `sql` or `chart_type` holds something other than a string. */
  function ReadRequest(spec: Json): (r: Option<Request>)
    ensures r.Some? <==> spec.JObject?
                         && ("sql" in spec.fields ==> spec.fields["sql"].JString?)
                         && ("chart_type" in spec.fields ==> spec.fields["chart_type"].JString?)
  {
    if !spec.JObject? then None
    else
      var f := spec.fields;
      var sql := if "sql" in f then f["sql"] else JString(DefaultSql);
      var chartType := if "chart_type" in f then f["chart_type"] else JString(DefaultChartType);
      var title := if "title" in f then f["title"] else JString(DefaultTitle);
      if !sql.JString? || !chartType.JString? then None
      else Some(Request(Strip(sql.s), Lower(chartType.s), title))
  }

  /** The fields of a request that reads: the query is the given `sql` stripped (so it carries no
      surrounding whitespace) and is empty when absent, the chart type is the given `chart_type`
      lower-cased (so it has no upper-case ASCII letter) and is "bar" when absent, and the title
      is the given one or the default. */
  lemma RequestFields(spec: Json)
    requires ReadRequest(spec).Some?
    ensures var req := ReadRequest(spec).value;
            ("sql" in spec.fields ==> req.sql == Strip(spec.fields["sql"].s))
            && (req.sql != [] ==> !IsSpace(req.sql[0]) && !IsSpace(req.sql[|req.sql| - 1]))
            && ("sql" !in spec.fields ==> req.sql == [])
            && ("chart_type" in spec.fields ==> req.chartType == Lower(spec.fields["chart_type"].s))
            && (forall k :: 0 <= k < |req.chartType| ==> !('A' <= req.chartType[k] <= 'Z'))
            && ("chart_type" !in spec.fields ==> req.chartType == DefaultChartType)
            && req.title == (if "title" in spec.fields then spec.fields["title"] else JString(DefaultTitle))
  {
    var f := spec.fields;
    var query := if "sql" in f then f["sql"].s else DefaultSql;
    var chartType := if "chart_type" in f then f["chart_type"].s else DefaultChartType;
    var title := if "title" in f then f["title"] else JString(DefaultTitle);
    var req := ReadRequest(spec).value;
    assert req == Request(Strip(query), Lower(chartType), title);
    LowerHasNoUpper(chartType);
    if "sql" !in f {
      StripEmpty();
    }
    if "chart_type" !in f {
      DefaultChartTypeIsLower();
    }
  }

  /** The default chart type is already lower-case. */
  lemma DefaultChartTypeIsLower()
    ensures Lower(DefaultChartType) == DefaultChartType
  {
    var t := Lower(DefaultChartType);
    assert t[0] == 'b' && t[1] == 'a' && t[2] == 'r';
  }

  /** What one request contributes to the batch. */
  datatype Step =
    | Abort               // an exception escapes the loop (line 152): the batch ends here
    | Skip                // `continue` or an exception caught at line 147: nothing for this request
    | Emit(result: ChartResult)

  /** Lines 69-146 for one request. */
  function ProcessSpec(spec: Json, run: string -> QueryResult, parsesAsDates: Column -> bool): Step
  {
    match ReadRequest(spec)
    case None => Abort
    case Some(req) =>
      if req.sql == [] then Skip
      else
        match run(req.sql)
        case QueryError => Skip
        case Rows(t) =>
          if IsEmpty(t) then Skip
          else
            match ChooseAxes(t.columns, NamesIn(t.columns, Dates(t.rows, parsesAsDates)))
            case None => Skip
            case Some(axes) =>
              if axes.x == [] || axes.y == [] then Skip
              else Emit(ChartResult(req.title, ResolveKind(req.chartType), axes.x, axes.y, req.sql, t))
  }

  /** What each request of `specs` contributes, request by request. */
  function Outcomes(specs: seq<Json>, run: string -> QueryResult, parsesAsDates: Column -> bool): (steps: seq<Step>)
    ensures |steps| == |specs|
  {
    if specs == [] then [] else [ProcessSpec(specs[0], run, parsesAsDates)] + Outcomes(specs[1..], run, parsesAsDates)
  }

  /** The results of a sequence of outcomes: one per emitting outcome, in order, up to the first
      abort. */
  function Collect(steps: seq<Step>): seq<ChartResult>
  {
    if steps == [] then []
    else
      match steps[0]
      case Abort => []
      case Skip => Collect(steps[1..])
      case Emit(r) => [r] + Collect(steps[1..])
  }

  /** The results of a batch of requests. */
  function Batch(specs: seq<Json>, run: string -> QueryResult, parsesAsDates: Column -> bool): seq<ChartResult>
  {
    Collect(Outcomes(specs, run, parsesAsDates))
  }

  /** Lines 69-146 for one request, step by step as the source does it. */
  method RenderSpec(spec: Json, run: string -> QueryResult, parsesAsDates: Column -> bool) returns (step: Step)
    ensures step == ProcessSpec(spec, run, parsesAsDates)
  {
    var req := ReadRequest(spec);
    if req.None? {
      return Abort;
    }
    var query := req.value.sql;
    if query == [] {
      return Skip;
    }
    var outcome := run(query);
    if outcome.QueryError? || IsEmpty(outcome.table) {
      return Skip;
    }
    var frame := outcome.table;
    var dates := DateColumns(frame, parsesAsDates);
    var axes := SelectAxes(frame.columns, dates);
    if axes.Some? && axes.value.x != [] && axes.value.y != [] {
      step := Emit(ChartResult(req.value.title, ResolveKind(req.value.chartType), axes.value.x, axes.value.y, query, frame));
    } else {
      step := Skip;
    }
  }

  /** Lines 63-150: the loop over the requests, appending to `results`. */
  method RunBatch(specs: seq<Json>, run: string -> QueryResult, parsesAsDates: Column -> bool)
    returns (results: seq<ChartResult>)
    ensures results == Batch(specs, run, parsesAsDates)
  {
    ghost var steps := Outcomes(specs, run, parsesAsDates);
    results := [];
    var i := 0;
    while i < |specs|
      invariant 0 <= i <= |specs|
      invariant results + Collect(steps[i..]) == Collect(steps)
    {
      var step := RenderAt(specs, i, run, parsesAsDates);
      CollectFrom(steps, i);
      if step.Abort? {
        assert results + [] == results;
        return;
      }
      AppendAssoc(results, Emitted(step), Collect(steps[i + 1..]));
      results := results + Emitted(step);
      i := i + 1;
    }
    assert steps[i..] == [];
    assert results + [] == results;
  }

  /** Request `i` of `specs`, rendered; its outcome is entry `i` of the outcomes. */
  method RenderAt(specs: seq<Json>, i: nat, run: string -> QueryResult, parsesAsDates: Column -> bool) returns (step: Step)
    requires i < |specs|
    ensures step == Outcomes(specs, run, parsesAsDates)[i]
  {
    step := RenderSpec(specs[i], run, parsesAsDates);
    OutcomeAt(specs, i, run, parsesAsDates);
  }

  /** Entry `i` of the outcomes is what request `i` gives. */
  lemma {:induction false} OutcomeAt(specs: seq<Json>, i: nat, run: string -> QueryResult, parsesAsDates: Column -> bool)
    requires i < |specs|
    ensures Outcomes(specs, run, parsesAsDates)[i] == ProcessSpec(specs[i], run, parsesAsDates)
  {
    if i > 0 {
      OutcomeAt(specs[1..], i - 1, run, parsesAsDates);
    }
  }

  /** What one outcome adds to the results when it does not abort. */
  function Emitted(step: Step): (added: seq<ChartResult>)
    ensures |added| <= 1 && (added != [] <==> step.Emit?)
  {
    if step.Emit? then [step.result] else []
  }

  /** One step of `Collect`, taken at position `i`. */
  lemma CollectFrom(steps: seq<Step>, i: nat)
    requires i < |steps|
    ensures Collect(steps[i..]) == if steps[i].Abort? then [] else Emitted(steps[i]) + Collect(steps[i + 1..])
  {
    assert steps[i..][0] == steps[i] && steps[i..][1..] == steps[i + 1..];
  }

  /** `generate_chart` as a whole: no results when nothing is recovered from the reply or the
      connection does not open. */
  method GenerateChart(reply: string, decode: string -> Decoded, connects: bool,
                       run: string -> QueryResult, parsesAsDates: Column -> bool)
    returns (results: seq<ChartResult>)
    ensures results == if connects then Batch(ParseSpecs(reply, decode), run, parsesAsDates) else []
  {
    var specs := ParseSpecs(reply, decode);
    if specs == [] {
      return [];
    }
    if !connects {
      return [];
    }
    results := RunBatch(specs, run, parsesAsDates);
  }

  /** Each result comes from its own outcome, in order: the results are the emitted outcomes
      of a strictly increasing selection of the steps, none of them after an abort. */
  lemma {:induction false} CollectOrigins(steps: seq<Step>) returns (origin: seq<nat>)
    ensures |origin| == |Collect(steps)| <= |steps|
    ensures forall k :: 0 <= k < |origin| ==>
              origin[k] < |steps| && steps[origin[k]] == Emit(Collect(steps)[k])
    ensures forall k, l :: 0 <= k < l < |origin| ==> origin[k] < origin[l]
    ensures forall k, j :: 0 <= k < |origin| && 0 <= j < origin[k] ==> steps[j] != Abort
  {
    if steps == [] {
      origin := [];
    } else {
      var rest := CollectOrigins(steps[1..]);
      var shifted := seq(|rest|, k requires 0 <= k < |rest| => rest[k] + 1);
      match steps[0]
      case Abort =>
        origin := [];
      case Skip =>
        origin := shifted;
      case Emit(r) =>
        origin := [0] + shifted;
    }
  }

  /** At most one result per request, in request order: result `k` is what request `origin[k]`
      emits, and the origins strictly increase. */
  lemma BatchOrigins(specs: seq<Json>, run: string -> QueryResult, parsesAsDates: Column -> bool)
    returns (origin: seq<nat>)
    ensures |origin| == |Batch(specs, run, parsesAsDates)| <= |specs|
    ensures forall k :: 0 <= k < |origin| ==>
              origin[k] < |specs| && ProcessSpec(specs[origin[k]], run, parsesAsDates) == Emit(Batch(specs, run, parsesAsDates)[k])
    ensures forall k, l :: 0 <= k < l < |origin| ==> origin[k] < origin[l]
  {
    var steps := Outcomes(specs, run, parsesAsDates);
    origin := CollectOrigins(steps);
    forall k | 0 <= k < |origin|
      ensures ProcessSpec(specs[origin[k]], run, parsesAsDates) == Emit(Batch(specs, run, parsesAsDates)[k])
    {
      OutcomeAt(specs, origin[k], run, parsesAsDates);
    }
  }

  /** An abort ends the batch: nothing after it is looked at. */
  lemma {:induction false} AbortEndsBatch(steps: seq<Step>, i: nat)
    requires i < |steps| && steps[i] == Abort
    ensures Collect(steps) == Collect(steps[..i])
  {
    if i > 0 {
      assert steps[1..][..i - 1] == steps[..i][1..];
      AbortEndsBatch(steps[1..], i - 1);
    }
  }

  /** A skipped request (empty query, failing query, empty result, nothing to chart) affects
      nothing else: the batch is the batch without it. */
  lemma {:induction false} SkipIsLocal(steps: seq<Step>, i: nat)
    requires i < |steps| && steps[i] == Skip
    ensures Collect(steps) == Collect(steps[..i] + steps[i + 1..])
  {
    if i == 0 {
      assert steps[..0] + steps[1..] == steps[1..];
    } else {
      var rest := steps[..i] + steps[i + 1..];
      assert rest[0] == steps[0];
      assert rest[1..] == steps[1..][..i - 1] + steps[1..][i..];
      SkipIsLocal(steps[1..], i - 1);
    }
  }

  /** Without an abort in `a`, the batch of `a` + `b` is the batch of `a` followed by the batch of `b`. */
  lemma {:induction false} BatchAppend(a: seq<Step>, b: seq<Step>)
    requires forall k :: 0 <= k < |a| ==> a[k] != Abort
    ensures Collect(a + b) == Collect(a) + Collect(b)
  {
    if a == [] {
      assert a + b == b;
    } else {
      assert (a + b)[0] == a[0] && (a + b)[1..] == a[1..] + b;
      BatchAppend(a[1..], b);
    }
  }

  /** The batch of one more request is the batch so far extended by what that request gives. */
  lemma BatchExtends(specs: seq<Json>, spec: Json, run: string -> QueryResult, parsesAsDates: Column -> bool)
    requires forall k :: 0 <= k < |specs| ==> ProcessSpec(specs[k], run, parsesAsDates) != Abort
    ensures Batch(specs + [spec], run, parsesAsDates) ==
              Batch(specs, run, parsesAsDates)
              + (match ProcessSpec(spec, run, parsesAsDates) case Emit(r) => [r] case _ => [])
  {
    var a := Outcomes(specs, run, parsesAsDates);
    var b := Outcomes([spec], run, parsesAsDates);
    OutcomesAppend(specs, [spec], run, parsesAsDates);
    forall k | 0 <= k < |a|
      ensures a[k] != Abort
    {
      OutcomeAt(specs, k, run, parsesAsDates);
    }
    BatchAppend(a, b);
    assert [spec][1..] == [];
    assert b == [ProcessSpec(spec, run, parsesAsDates)];
    assert b[1..] == [];
  }

  /** The outcomes of two runs of requests, one after the other, are those of the whole. */
  lemma {:induction false} OutcomesAppend(a: seq<Json>, b: seq<Json>, run: string -> QueryResult, parsesAsDates: Column -> bool)
    ensures Outcomes(a + b, run, parsesAsDates) == Outcomes(a, run, parsesAsDates) + Outcomes(b, run, parsesAsDates)
  {
    if a == [] {
      assert a + b == b;
    } else {
      assert (a + b)[0] == a[0] && (a + b)[1..] == a[1..] + b;
      OutcomesAppend(a[1..], b, run, parsesAsDates);
    }
  }

  /** A request aborts the batch exactly when it cannot be read, and one without a query is skipped
      before anything is run. */
  lemma AbortOrSkipBeforeQuery(spec: Json, run: string -> QueryResult, parsesAsDates: Column -> bool)
    ensures ProcessSpec(spec, run, parsesAsDates) == Abort <==> ReadRequest(spec).None?
    ensures ReadRequest(spec).Some? && ReadRequest(spec).value.sql == [] ==> ProcessSpec(spec, run, parsesAsDates) == Skip
  {
  }

  /** A result without a numeric column produces nothing. */
  lemma NoNumericColumnSkipped(spec: Json, run: string -> QueryResult, parsesAsDates: Column -> bool)
    requires ReadRequest(spec).Some? && ReadRequest(spec).value.sql != []
    requires run(ReadRequest(spec).value.sql).Rows?
    requires var t := run(ReadRequest(spec).value.sql).table;
             forall i :: 0 <= i < |t.columns| ==> t.columns[i].dtype != Number
    ensures ProcessSpec(spec, run, parsesAsDates) == Skip
  {
    var t := run(ReadRequest(spec).value.sql).table;
    AxesFollowClasses(t.columns, t.rows, parsesAsDates);
  }

  /** A request with a non-empty query whose run fails or returns no rows produces nothing. */
  lemma FailedOrEmptyQuerySkipped(spec: Json, run: string -> QueryResult, parsesAsDates: Column -> bool)
    requires ReadRequest(spec).Some? && ReadRequest(spec).value.sql != []
    requires run(ReadRequest(spec).value.sql).QueryError? || run(ReadRequest(spec).value.sql).table.rows == 0
    ensures ProcessSpec(spec, run, parsesAsDates) == Skip
  {
  }

  /** What an emitted result is: the request's title, its stripped non-empty query, the table that
      query returned (not empty), the kind resolved from the lower-cased chart type, the first
      numeric column as y, and as x the first date column, else the first categorical column,
      else the first column; neither axis name is empty. */
  lemma EmittedResult(spec: Json, run: string -> QueryResult, parsesAsDates: Column -> bool)
    requires ProcessSpec(spec, run, parsesAsDates).Emit?
    ensures ReadRequest(spec).Some?
    ensures ProcessSpec(spec, run, parsesAsDates).result ==
              var req := ReadRequest(spec).value;
              var t := run(req.sql).table;
              var axes := ChooseAxes(t.columns, NamesIn(t.columns, Dates(t.rows, parsesAsDates))).value;
              ChartResult(req.title, ResolveKind(req.chartType), axes.x, axes.y, req.sql, t)
    ensures var r := ProcessSpec(spec, run, parsesAsDates).result;
            r.sql != [] && !IsSpace(r.sql[0]) && !IsSpace(r.sql[|r.sql| - 1])
            && run(r.sql) == Rows(r.frame) && r.frame.rows > 0 && r.frame.columns != []
            && r.x != [] && r.y != []
            && (exists i :: FirstSelected(r.frame.columns, Numeric, i) && r.y == r.frame.columns[i].name)
  {
    var req := ReadRequest(spec).value;
    var t := run(req.sql).table;
    AxesFollowClasses(t.columns, t.rows, parsesAsDates);
  }

  /** A grouping query. It is written in three pieces so that the proofs see its first and last
      characters without unfolding the whole literal. */
  const SalesQuery := "SELECT" + " funcionario, SUM(valor) as total FROM vendas GROUP BY " + "funcionario"
  const SalesTitle := "Vendas por Funcionário"

  /** The request of the end-to-end scenario: a bar chart on a grouping query. */
  const SalesRequest := JObject(map["sql" := JString(SalesQuery), "chart_type" := JString("bar"),
                                    "title" := JString(SalesTitle)])

  /** The scenario's request reads as written: its query has no surrounding whitespace and its
      chart type is already lower-case. */
  lemma SalesRequestReads()
    ensures ReadRequest(SalesRequest) == Some(Request(SalesQuery, "bar", JString(SalesTitle)))
  {
    StripKeeps(SalesQuery);
    DefaultChartTypeIsLower();
    assert SalesRequest.fields["sql"] == JString(SalesQuery);
    assert SalesRequest.fields["chart_type"] == JString(DefaultChartType);
    assert SalesRequest.fields["title"] == JString(SalesTitle);
  }

  /** The scenario's result table, a text column of names and a numeric column of totals, is
      drawn with the names as x and the totals as y. */
  lemma SalesAxes(names: Column, totals: Column, rows: nat, parsesAsDates: Column -> bool)
    requires names.name == "funcionario" && names.dtype == Object && !parsesAsDates(names)
    requires totals.name == "total" && totals.dtype == Number
    ensures ChooseAxes([names, totals], NamesIn([names, totals], Dates(rows, parsesAsDates)))
              == Some(Axes("funcionario", "total"))
  {
    var cols := [names, totals];
    assert cols[..1] == [names] && [names][..0] == [];
    assert NamesIn(cols, Dates(rows, parsesAsDates)) == [];
    assert NamesIn(cols, Textual) == ["funcionario"];
    assert NamesIn(cols, Numeric) == ["total"];
  }

  /** The scenario's request, run on that table, emits one bar chart of the totals by name. */
  lemma SalesStep(run: string -> QueryResult, parsesAsDates: Column -> bool, names: Column, totals: Column)
    requires names.name == "funcionario" && names.dtype == Object && !parsesAsDates(names)
    requires totals.name == "total" && totals.dtype == Number
    requires run(SalesQuery) == Rows(Table([names, totals], 3))
    ensures ProcessSpec(SalesRequest, run, parsesAsDates) ==
              Emit(ChartResult(JString(SalesTitle), Bar, "funcionario", "total", SalesQuery, Table([names, totals], 3)))
  {
    SalesRequestReads();
    SalesAxes(names, totals, 3, parsesAsDates);
    BarRequestIsBar();
  }

  /** A batch of the scenario's request alone holds its one chart. */
  lemma SalesBatch(run: string -> QueryResult, parsesAsDates: Column -> bool, names: Column, totals: Column)
    requires names.name == "funcionario" && names.dtype == Object && !parsesAsDates(names)
    requires totals.name == "total" && totals.dtype == Number
    requires run(SalesQuery) == Rows(Table([names, totals], 3))
    ensures Batch([SalesRequest], run, parsesAsDates) ==
              [ChartResult(JString(SalesTitle), Bar, "funcionario", "total", SalesQuery, Table([names, totals], 3))]
  {
    SalesStep(run, parsesAsDates, names, totals);
    BatchExtends([], SalesRequest, run, parsesAsDates);
    assert [] + [SalesRequest] == [SalesRequest];
  }

  /** The end-to-end scenario: the model answers with one bar-chart request on a grouping query,
      and the query returns three rows with a text column and a numeric total. The run gives
      exactly one bar chart with the text column as x and the total as y, holding those rows. */
  lemma SalesByEmployee(reply: string, decode: string -> Decoded, run: string -> QueryResult,
                        parsesAsDates: Column -> bool, names: Column, totals: Column)
    requires |reply| >= 2 && reply[0] == '[' && reply[|reply| - 1] == ']'
    requires !Contains(reply, Backticks)
    requires decode(reply) == Parsed(JArray([SalesRequest]))
    requires names.name == "funcionario" && names.dtype == Object && !parsesAsDates(names)
    requires totals.name == "total" && totals.dtype == Number
    requires run(SalesQuery) == Rows(Table([names, totals], 3))
    ensures Batch(ParseSpecs(reply, decode), run, parsesAsDates) ==
              [ChartResult(JString(SalesTitle), Bar, "funcionario", "total", SalesQuery, Table([names, totals], 3))]
  {
    assert reply == [] + reply + [];
    ArrayReplyYieldsItems(reply, [], reply, [], decode, [SalesRequest]);
    SalesBatch(run, parsesAsDates, names, totals);
  }
}
