/** Choice of the chart kind from the requested `chart_type`
    (src/tools/chart_generator.py, lines 122-139). */
module ChartKinds {
  import opened Strings

  /** The nine plotting functions the generator can call. */
  datatype ChartKind = Pie | Line | Scatter | Area | Funnel | Box | Violin | Histogram | Bar

  /** The chain of substring tests on the lower-cased `chart_type`, first hit wins, bar otherwise. */
  function ResolveKind(chartType: string): ChartKind
  {
    if Contains(chartType, "pie") then Pie
    else if Contains(chartType, "line") then Line
    else if Contains(chartType, "scatter") then Scatter
    else if Contains(chartType, "area") then Area
    else if Contains(chartType, "funnel") then Funnel
    else if Contains(chartType, "box") then Box
    else if Contains(chartType, "violin") then Violin
    else if Contains(chartType, "histogram") then Histogram
    else Bar
  }

  /** The same priority order written as a table of (keyword, kind) pairs. */
  const Keywords: seq<(string, ChartKind)> :=
    [("pie", Pie), ("line", Line), ("scatter", Scatter), ("area", Area),
     ("funnel", Funnel), ("box", Box), ("violin", Violin), ("histogram", Histogram)]

  /** Keyword `i` of the table is the first one `chartType` contains. */
  ghost predicate FirstHit(chartType: string, i: int)
  {
    0 <= i < |Keywords| && Contains(chartType, Keywords[i].0)
    && forall j :: 0 <= j < i ==> !Contains(chartType, Keywords[j].0)
  }

  /** The chain picks the kind of the first keyword the requested type contains, and bar
      exactly when it contains none of them. */
  lemma ResolveKindIsFirstHit(chartType: string)
    ensures forall i :: FirstHit(chartType, i) ==> ResolveKind(chartType) == Keywords[i].1
    ensures ResolveKind(chartType) == Bar <==> forall i :: 0 <= i < |Keywords| ==> !Contains(chartType, Keywords[i].0)
  {
    assert Keywords[0].0 == "pie" && Keywords[1].0 == "line" && Keywords[2].0 == "scatter";
    assert Keywords[3].0 == "area" && Keywords[4].0 == "funnel" && Keywords[5].0 == "box";
    assert Keywords[6].0 == "violin" && Keywords[7].0 == "histogram";
  }

  /** Each kind other than bar comes from exactly one keyword, so a resolved kind names its keyword. */
  lemma ResolvedKindHasItsKeyword(chartType: string, i: int)
    requires 0 <= i < |Keywords| && ResolveKind(chartType) == Keywords[i].1
    ensures FirstHit(chartType, i)
  {
    ResolveKindIsFirstHit(chartType);
    assert Keywords[0].0 == "pie" && Keywords[1].0 == "line" && Keywords[2].0 == "scatter";
    assert Keywords[3].0 == "area" && Keywords[4].0 == "funnel" && Keywords[5].0 == "box";
    assert Keywords[6].0 == "violin" && Keywords[7].0 == "histogram";
  }

  /** "line bar" names two kinds; line comes first in the order and wins over bar. */
  lemma LineBeatsBar()
    ensures ResolveKind("line bar") == Line
  {
    assert "line bar"[..4] == "line";
    AbsentFirstChar("line bar", "pie");
  }

  /** The default requested type "bar" names no other kind and gives a bar chart. */
  lemma BarRequestIsBar()
    ensures ResolveKind("bar") == Bar
  {
    AbsentFirstChar("bar", "pie");
    AbsentFirstChar("bar", "line");
    AbsentFirstChar("bar", "scatter");
    ContainsIff("bar", "area");
    AbsentFirstChar("bar", "funnel");
    AbsentFirstChar("bar", "violin");
    AbsentFirstChar("bar", "histogram");
    ContainsIff("bar", "box");
    assert !OccursAt("bar", "box", 0) by {
      assert "bar"[0..3][1] == 'a';
    }
  }

  /** A requested type naming no known kind falls back to bar. */
  lemma UnknownKindIsBar()
    ensures ResolveKind("unknown-kind") == Bar
  {
    var t := "unknown-kind";
    assert forall k :: 0 <= k < |t| ==> t[k] !in "plsafbvh";
    AbsentFirstChar(t, "pie");
    AbsentFirstChar(t, "line");
    AbsentFirstChar(t, "scatter");
    AbsentFirstChar(t, "area");
    AbsentFirstChar(t, "funnel");
    AbsentFirstChar(t, "box");
    AbsentFirstChar(t, "violin");
    AbsentFirstChar(t, "histogram");
  }

  /** A descriptive requested type is lower-cased and then matched: "Gráfico de Pizza (pie)" is a pie. */
  lemma DescriptivePieRequest()
    ensures ResolveKind(Lower("Gráfico de Pizza (pie)")) == Pie
  {
    var t := Lower("Gráfico de Pizza (pie)");
    assert t[18] == 'p' && t[19] == 'i' && t[20] == 'e';
    assert t[18..21] == "pie";
    assert OccursAt(t, "pie", 18);
    ContainsIff(t, "pie");
  }
}
