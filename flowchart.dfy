/** The flowchart builder: one pass over the program's lines that lays out a
    linear chain of nodes, top to bottom, from `Inicio` to `Fin`. */
module Flowchart {
  import opened Text

  datatype NodeType = Start | End | Process | Decision | Input | Output | Loop

  datatype FlowchartNode = FlowchartNode(
    id: string,
    kind: NodeType,
    text: string,
    x: int,
    y: int,
    connections: seq<string>,
    yesLabel: Option<string>,
    noLabel: Option<string>)

  datatype FlowchartData = FlowchartData(nodes: seq<FlowchartNode>, width: int, height: int)

  const XCenter := 400
  const YStart := 50
  const YSpacing := 120
  const Width := 800
  const BottomMargin := 100

  /** What a node shows, before it is given an id, a place and its links. */
  datatype Shape = Shape(kind: NodeType, text: string, yesLabel: Option<string>, noLabel: Option<string>)

  const StartShape := Shape(Start, "Inicio", None, None)
  const EndShape := Shape(End, "Fin", None, None)

  /** The id handed out by the `k`-th call of the id counter. */
  function NodeId(k: nat): string {
    "node-" + Decimal(k)
  }

  lemma NodeIdsDistinct(a: nat, b: nat)
    requires a != b
    ensures NodeId(a) != NodeId(b)
  {
    if NodeId(a) == NodeId(b) {
      assert Decimal(a) == NodeId(a)[5..];
      assert Decimal(b) == NodeId(b)[5..];
      DecimalInjective(a, b);
    }
  }

  /** Declarations and the algorithm's own header and footer. */
  predicate Skipped(line: string) {
    || StartsWithCI(line, "algoritmo") || EqualsCI(line, "finalgoritmo")
    || StartsWithCI(line, "definir") || StartsWithCI(line, "dimension")
  }

  /** The lines that only move the decision stack. */
  predicate ClosesBranch(line: string) {
    EqualsCI(line, "sino") || EqualsCI(line, "finsi")
  }

  /** The node a line adds, tested in the builder's order; `None` adds no node. */
  function ShapeOf(line: string): Option<Shape> {
    if Skipped(line) then None
    else if StartsWithCI(line, "leer") then
      Some(Shape(Input, "Leer " + Trim(RemoveFirstCI(line, "leer")), None, None))
    else if StartsWithCI(line, "escribir") then
      Some(Shape(Output, "Escribir " + Trim(RemoveFirstCI(line, "escribir")), None, None))
    else if Contains(line, "<-") then
      Some(Shape(Process, ReplaceFirst(line, "<-", "=", false), None, None))
    else if StartsWithCI(line, "si ") then
      Some(Shape(Decision, Trim(RemoveFirstCI(RemoveFirstCI(line, "si"), "entonces")), Some("S\U{ED}"), Some("No")))
    else if ClosesBranch(line) then None
    else if StartsWithCI(line, "mientras") then
      Some(Shape(Loop, "Mientras " + Trim(RemoveFirstCI(RemoveFirstCI(line, "mientras"), "hacer")), None, None))
    else if StartsWithCI(line, "para ") then
      Some(Shape(Loop, Trim(RemoveFirstCI(line, "hacer")), None, None))
    else if EqualsCI(line, "repetir") then
      Some(Shape(Loop, "Repetir", None, None))
    else None
  }

  /** A line the builder draws: a keyword it knows or an assignment arrow. */
  predicate Recognised(line: string) {
    && !Skipped(line)
    && (|| StartsWithCI(line, "leer") || StartsWithCI(line, "escribir") || Contains(line, "<-")
        || StartsWithCI(line, "si ") || StartsWithCI(line, "mientras")
        || StartsWithCI(line, "para ") || EqualsCI(line, "repetir"))
  }

  /** The shapes of the lines that add a node, in line order. */
  function Shapes(lines: seq<string>): (r: seq<Shape>)
    ensures |r| <= |lines|
  {
    if lines == [] then []
    else
      var last := lines[|lines| - 1];
      Shapes(lines[..|lines| - 1]) + (match ShapeOf(last) case Some(s) => [s] case None => [])
  }

  /** Every node of the chart: the start, one per drawn line, the end. */
  function Steps(lines: seq<string>): seq<Shape> {
    [StartShape] + Shapes(lines) + [EndShape]
  }

  /** The `k`-th node: its id, its place on the centre line, its links. */
  function Place(s: Shape, k: nat, links: seq<string>): FlowchartNode {
    FlowchartNode(NodeId(k), s.kind, s.text, XCenter, YStart + YSpacing * k, links, s.yesLabel, s.noLabel)
  }

  /** Shapes laid out in order, each linked to the one after it. */
  function Chain(shapes: seq<Shape>): seq<FlowchartNode> {
    seq(|shapes|, k requires 0 <= k < |shapes| =>
      Place(shapes[k], k, if k + 1 < |shapes| then [NodeId(k + 1)] else []))
  }

  /** The chart the builder returns for already split lines. */
  function Chart(lines: seq<string>): FlowchartData {
    var steps := Steps(lines);
    FlowchartData(Chain(steps), Width, YStart + YSpacing * (|steps| - 1) + BottomMargin)
  }

  // ------------------------------------------------------------ the builder

  /** `nodes.find(n => n.id === id)`: the first node carrying the id. */
  method FindNode(nodes: seq<FlowchartNode>, id: string) returns (r: Option<nat>)
    ensures r.Some? ==> r.value < |nodes| && nodes[r.value].id == id
    ensures r.Some? ==> forall j :: 0 <= j < r.value ==> nodes[j].id != id
    ensures r.None? <==> forall j :: 0 <= j < |nodes| ==> nodes[j].id != id
  {
    var i := 0;
    while i < |nodes|
      invariant i <= |nodes|
      invariant forall j :: 0 <= j < i ==> nodes[j].id != id
    {
      if nodes[i].id == id {
        return Some(i);
      }
      i := i + 1;
    }
    return None;
  }

  /** Appends the `|shapes|`-th node and links the previous last node to it:
      the chain of `shapes` grows into the chain of `shapes + [s]`. */
  method Link(nodes: seq<FlowchartNode>, ghost shapes: seq<Shape>, nodeId: nat, s: Shape, previousNodeId: string)
    returns (nodes': seq<FlowchartNode>, id: string)
    requires |shapes| > 0 && nodes == Chain(shapes) && nodeId == |shapes|
    requires previousNodeId == NodeId(|shapes| - 1)
    ensures nodes' == Chain(shapes + [s]) && id == NodeId(|shapes|)
  {
    id := NodeId(nodeId);
    nodes' := nodes + [Place(s, nodeId, [])];
    forall j | 0 <= j < |shapes| - 1
      ensures nodes'[j].id != previousNodeId
    {
      NodeIdsDistinct(j, |shapes| - 1);
    }
    var prev := FindNode(nodes', previousNodeId);
    if prev.Some? {
      var p := prev.value;
      nodes' := nodes'[p := nodes'[p].(connections := nodes'[p].connections + [id])];
    }
    ChainGrows(shapes, s);
  }

  lemma ChainGrows(shapes: seq<Shape>, s: Shape)
    requires |shapes| > 0
    ensures var n := |shapes|;
      var grown := Chain(shapes) + [Place(s, n, [])];
      Chain(shapes + [s]) == grown[n - 1 := grown[n - 1].(connections := [] + [NodeId(n)])]
  {
    var n := |shapes|;
    var grown := Chain(shapes) + [Place(s, n, [])];
    var linked := grown[n - 1 := grown[n - 1].(connections := [] + [NodeId(n)])];
    var c := Chain(shapes + [s]);
    assert |c| == |linked|;
    forall k | 0 <= k < |c| ensures c[k] == linked[k] {
      if k < n - 1 {
        assert (shapes + [s])[k] == shapes[k];
      } else if k == n - 1 {
        assert (shapes + [s])[k] == shapes[k];
        assert [] + [NodeId(n)] == [NodeId(n)];
      }
    }
  }

  lemma ShapesStep(lines: seq<string>, i: nat)
    requires i < |lines|
    ensures Shapes(lines[..i + 1])
         == Shapes(lines[..i]) + (match ShapeOf(lines[i]) case Some(s) => [s] case None => [])
  {
    assert lines[..i + 1][..i] == lines[..i];
  }

  /** One turn of `lines.forEach`: a line with a shape gets the next node,
      linked from the previous one, and a decision's id is pushed; a line
      closing a branch pops the last decision. */
  method Visit(line: string, nodes: seq<FlowchartNode>, ghost shapes: seq<Shape>, nodeId: nat, yPosition: int,
               previousNodeId: string, decisionStack: seq<string>)
    returns (nodes': seq<FlowchartNode>, ghost shapes': seq<Shape>, nodeId': nat, yPosition': int,
             previousNodeId': string, decisionStack': seq<string>)
    requires |shapes| > 0 && nodes == Chain(shapes) && nodeId == |shapes|
    requires yPosition == YStart + YSpacing * |shapes| && previousNodeId == NodeId(|shapes| - 1)
    ensures shapes' == shapes + (match ShapeOf(line) case Some(s) => [s] case None => [])
    ensures nodes' == Chain(shapes') && nodeId' == |shapes'|
    ensures yPosition' == YStart + YSpacing * |shapes'| && previousNodeId' == NodeId(|shapes'| - 1)
  {
    nodes', shapes', nodeId', yPosition', previousNodeId', decisionStack' :=
      nodes, shapes, nodeId, yPosition, previousNodeId, decisionStack;
    var shape := ShapeOf(line);
    if shape.Some? {
      var id;
      nodes', id := Link(nodes, shapes, nodeId, shape.value, previousNodeId);
      nodeId' := nodeId + 1;
      if shape.value.kind == Decision {
        decisionStack' := decisionStack + [id];
      }
      previousNodeId' := id;
      yPosition' := yPosition + YSpacing;
      shapes' := shapes + [shape.value];
    } else if ClosesBranch(line) && |decisionStack| > 0 {
      decisionStack' := decisionStack[..|decisionStack| - 1];
    }
  }

  /** `generateFlowchart` on lines already split, trimmed and filtered. */
  method BuildChart(lines: seq<string>) returns (data: FlowchartData)
    ensures data == Chart(lines)
  {
    var nodeId: nat := 0;
    var yPosition := YStart;
    var nodes: seq<FlowchartNode> := [];

    var startId := NodeId(nodeId);
    nodeId := nodeId + 1;
    nodes := nodes + [Place(StartShape, 0, [])];
    yPosition := yPosition + YSpacing;
    var previousNodeId := startId;
    var decisionStack: seq<string> := [];
    ghost var shapes := [StartShape];
    assert nodes == Chain(shapes);

    for i := 0 to |lines|
      invariant shapes == [StartShape] + Shapes(lines[..i])
      invariant nodes == Chain(shapes)
      invariant nodeId == |shapes| && yPosition == YStart + YSpacing * |shapes|
      invariant previousNodeId == NodeId(|shapes| - 1)
    {
      ShapesStep(lines, i);
      nodes, shapes, nodeId, yPosition, previousNodeId, decisionStack :=
        Visit(lines[i], nodes, shapes, nodeId, yPosition, previousNodeId, decisionStack);
    }
    assert lines[..|lines|] == lines;

    var endId;
    nodes, endId := Link(nodes, shapes, nodeId, EndShape, previousNodeId);
    data := FlowchartData(nodes, Width, yPosition + BottomMargin);
    ChartOfSteps(lines, shapes);
  }

  /** The chart is the chain of the shapes met, closed by `Fin`. */
  lemma ChartOfSteps(lines: seq<string>, shapes: seq<Shape>)
    requires shapes == [StartShape] + Shapes(lines)
    ensures Chart(lines) == FlowchartData(Chain(shapes + [EndShape]), Width, YStart + YSpacing * |shapes| + BottomMargin)
  {
  }

  /** `generateFlowchart(pseudocode)`. */
  method GenerateFlowchart(pseudocode: string) returns (data: FlowchartData)
    ensures data == Chart(NonBlankLines(pseudocode))
  {
    var lines := NonBlankLines(pseudocode);
    data := BuildChart(lines);
  }

  // ------------------------------------------------------------ properties

  /** The shape of every chart: `Inicio` first at the top, `Fin` last, ids
      and rows in creation order on the centre line, each node linked to
      the next one only, distinct ids, and a canvas 100 below the last row. */
  lemma ChartLayout(lines: seq<string>)
    ensures var c := Chart(lines); var n := |c.nodes|;
      && n == |Shapes(lines)| + 2
      && c.nodes[0].kind == Start && c.nodes[0].text == "Inicio" && c.nodes[0].y == 50
      && c.nodes[n - 1].kind == End && c.nodes[n - 1].text == "Fin"
      && c.nodes[n - 1].connections == []
      && (forall k :: 0 <= k < n ==>
            c.nodes[k].id == NodeId(k) && c.nodes[k].x == 400 && c.nodes[k].y == 50 + 120 * k)
      && (forall k :: 0 <= k < n - 1 ==> c.nodes[k].connections == [c.nodes[k + 1].id])
      && c.width == 800 && c.height == c.nodes[n - 1].y + 100
  {
    var steps := Steps(lines);
    ChainLaidOut(steps);
    assert steps[0] == StartShape;
    assert steps[|steps| - 1] == EndShape;
  }

  /** A chain puts its `k`-th node at row `k` on the centre line, with id
      `node-k`, and links each node to the next one only. */
  lemma ChainLaidOut(shapes: seq<Shape>)
    ensures var c := Chain(shapes);
      && |c| == |shapes|
      && (forall k :: 0 <= k < |c| ==> c[k].id == NodeId(k) && c[k].x == 400 && c[k].y == 50 + 120 * k)
      && (forall k :: 0 <= k < |c| ==> c[k].kind == shapes[k].kind && c[k].text == shapes[k].text)
      && (forall k :: 0 <= k < |c| - 1 ==> c[k].connections == [c[k + 1].id])
      && (|c| > 0 ==> c[|c| - 1].connections == [])
  {
  }

  lemma IdsUnique(lines: seq<string>)
    ensures var ns := Chart(lines).nodes;
      forall j, k :: 0 <= j < k < |ns| ==> ns[j].id != ns[k].id
  {
    var ns := Chart(lines).nodes;
    forall j, k | 0 <= j < k < |ns| ensures ns[j].id != ns[k].id {
      NodeIdsDistinct(j, k);
    }
  }

  /** A drawn line adds one node, where `Fin` stood, at the current row;
      everything below moves down one row. Any other line changes nothing. */
  lemma LineAddsOneNode(lines: seq<string>, line: string)
    ensures var before, after := Chart(lines), Chart(lines + [line]);
      match ShapeOf(line)
      case None => after == before
      case Some(s) =>
        && |after.nodes| == |before.nodes| + 1
        && after.nodes[..|before.nodes| - 1] == before.nodes[..|before.nodes| - 2]
             + [before.nodes[|before.nodes| - 2].(connections := [NodeId(|before.nodes| - 1)])]
        && after.nodes[|before.nodes| - 1]
             == Place(s, |before.nodes| - 1, [NodeId(|before.nodes|)])
        && after.nodes[|before.nodes| - 1].y == before.nodes[|before.nodes| - 1].y
        && after.height == before.height + 120
  {
    var all := lines + [line];
    assert all[..|all| - 1] == lines;
    match ShapeOf(line)
    case None =>
    case Some(s) =>
      var sb := Steps(lines);
      assert Shapes(all) == Shapes(lines) + [s];
      assert Steps(all) == sb[..|sb| - 1] + [s, sb[|sb| - 1]];
      ChainInsert(sb, s);
  }

  /** Putting a shape just before the last one of a chain. */
  lemma ChainInsert(sb: seq<Shape>, s: Shape)
    requires |sb| >= 2
    ensures var n := |sb|; var ca, cb := Chain(sb[..n - 1] + [s, sb[n - 1]]), Chain(sb);
      && |ca| == n + 1
      && ca[..n - 1] == cb[..n - 2] + [cb[n - 2].(connections := [NodeId(n - 1)])]
      && ca[n - 1] == Place(s, n - 1, [NodeId(n)])
  {
    var n := |sb|;
    var sa := sb[..n - 1] + [s, sb[n - 1]];
    var ca, cb := Chain(sa), Chain(sb);
    var front := cb[..n - 2] + [cb[n - 2].(connections := [NodeId(n - 1)])];
    forall k | 0 <= k < n - 1 ensures ca[k] == front[k] {
      assert sa[k] == sb[k];
    }
    assert ca[..n - 1] == front;
    assert sa[n - 1] == s;
  }

  /** The builder's ignored lines draw nothing. */
  lemma IgnoredLines(line: string)
    requires Skipped(line) || ClosesBranch(line)
    ensures ShapeOf(line).None?
  {
    if ClosesBranch(line) && !Skipped(line) {
      var w := if EqualsCI(line, "sino") then "sino" else "finsi";
      KeywordsExclusive(line, w, "leer", 0);
      KeywordsExclusive(line, w, "escribir", 0);
      KeywordsExclusive(line, w, "si ", 2);
      forall p: nat ensures !MatchAt(line, p, "<-", false) {
        if p < |w| {
          MatchedChar(line, 0, w, true, p);
          assert Fold(line[p + 0], false) != "<-"[0];
        } else {
          assert |line| == |w|;
        }
      }
    }
  }

  /** Exactly the recognised lines add a node. */
  lemma DrawnIffRecognised(line: string)
    ensures ShapeOf(line).Some? <==> Recognised(line)
  {
    if Recognised(line) && ClosesBranch(line) {
      IgnoredLines(line);
      var w := if EqualsCI(line, "sino") then "sino" else "finsi";
      KeywordsExclusive(line, w, "mientras", 0);
      KeywordsExclusive(line, w, "para ", 0);
    }
  }

  /** Every line with an arrow that no earlier test claims, among them
      `Para i <- 1 Hasta n` and `Funcion r <- f(x)`, is drawn as a process
      whose label swaps the first arrow for `=`. */
  lemma ArrowLinesAreProcesses(line: string)
    requires Contains(line, "<-")
    requires StartsWithCI(line, "para ") || StartsWithCI(line, "funcion")
    ensures var i := IndexOf(line, "<-", false, 0).value;
      ShapeOf(line) == Some(Shape(Process, line[..i] + "=" + line[i + 2..], None, None))
  {
    var w := if StartsWithCI(line, "para ") then "para " else "funcion";
    KeywordsExclusive(line, w, "algoritmo", 0);
    KeywordsExclusive(line, w, "finalgoritmo", 1);
    KeywordsExclusive(line, w, "definir", 0);
    KeywordsExclusive(line, w, "dimension", 0);
    KeywordsExclusive(line, w, "leer", 0);
    KeywordsExclusive(line, w, "escribir", 0);
  }

  /** The labels of the keyword lines drop the keyword at the front. */
  lemma InputLabel(line: string)
    requires StartsWithCI(line, "leer")
    ensures ShapeOf(line) == Some(Shape(Input, "Leer " + Trim(line[4..]), None, None))
  {
    KeywordLineOnly(line, "leer");
    RemoveFirstAtStart(line, "leer");
  }

  lemma OutputLabel(line: string)
    requires StartsWithCI(line, "escribir")
    ensures ShapeOf(line) == Some(Shape(Output, "Escribir " + Trim(line[8..]), None, None))
  {
    KeywordLineOnly(line, "escribir");
    RemoveFirstAtStart(line, "escribir");
  }

  /** A condition also loses its first `entonces`, wherever it stands. */
  lemma DecisionLabel(line: string)
    requires StartsWithCI(line, "si ") && !Contains(line, "<-")
    ensures ShapeOf(line) == Some(Shape(Decision, Trim(RemoveFirstCI(line[2..], "entonces")), Some("S\U{ED}"), Some("No")))
  {
    KeywordLineOnly(line, "si ");
    KeywordPrefix(line, "si ", 2);
    assert "si "[..2] == "si";
    RemoveFirstAtStart(line, "si");
  }

  /** A loop condition also loses its first `hacer`, wherever it stands. */
  lemma WhileLabel(line: string)
    requires StartsWithCI(line, "mientras") && !Contains(line, "<-")
    ensures ShapeOf(line) == Some(Shape(Loop, "Mientras " + Trim(RemoveFirstCI(line[8..], "hacer")), None, None))
  {
    KeywordLineOnly(line, "mientras");
    assert !ClosesBranch(line) by {
      assert |line| >= 8;
    }
    RemoveFirstAtStart(line, "mientras");
  }

  /** A line that begins with one of the drawn keywords is not skipped and
      begins with none of the others. */
  lemma KeywordLineOnly(line: string, w: string)
    requires w in ["leer", "escribir", "si ", "mientras"] && StartsWithCI(line, w)
    ensures !Skipped(line)
    ensures forall k :: k in ["leer", "escribir", "si ", "mientras"] && k != w ==> !StartsWithCI(line, k)
  {
    KeywordsExclusive(line, w, "algoritmo", 0);
    KeywordsExclusive(line, w, "finalgoritmo", 0);
    KeywordsExclusive(line, w, "definir", 0);
    KeywordsExclusive(line, w, "dimension", 0);
    forall k | k in ["leer", "escribir", "si ", "mientras"] && k != w
      ensures !StartsWithCI(line, k)
    {
      KeywordsExclusive(line, w, k, 0);
    }
  }
}
