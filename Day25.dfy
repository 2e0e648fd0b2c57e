/** Day 25: a wiring diagram of components. Each line names a component and the components
    it is wired to; the builder numbers the names in order of first appearance and keeps a
    symmetric adjacency matrix. The solver then removes components one at a time, always
    the one with the most wires to removed components, until exactly three wires join the
    retained components to the removed ones, and reports the sizes of the two groups. */
module Day25 {
  import opened Wrappers
  import opened Text

  // ---------------------------------------------------------------------------------------
  // Names

  /** A component name: exactly three characters. */
  datatype NodeName = NodeName(first: char, second: char, third: char)

  function NameText(name: NodeName): String
  {
    [name.first, name.second, name.third]
  }

  /** `NodeName::from_str`: a name is exactly three characters. */
  function NodeNameOf(text: String): (r: Result<NodeName>)
    ensures r.Ok? <==> |text| == 3
    ensures r.Ok? ==> NameText(r.value) == text
  {
    if |text| == 3 then Ok(NodeName(text[0], text[1], text[2])) else Err
  }

  /** Writing a name and parsing it gives the name back. */
  lemma NameRoundTrip(name: NodeName)
    ensures NodeNameOf(NameText(name)) == Ok(name)
  {
  }

  /** The loop of `NodeName::from_str`: the first three characters fill the name and a
      fourth one is refused. */
  method NodeNameFromStr(text: String) returns (r: Result<NodeName>)
    ensures r == NodeNameOf(text)
  {
    var a: Result<char> := Err;
    var b: Result<char> := Err;
    var c: Result<char> := Err;
    for ix := 0 to |text|
      invariant ix <= 3
      invariant a == (if ix > 0 then Ok(text[0]) else Err)
      invariant b == (if ix > 1 then Ok(text[1]) else Err)
      invariant c == (if ix > 2 then Ok(text[2]) else Err)
    {
      if ix == 0 {
        a := Ok(text[ix]);
      } else if ix == 1 {
        b := Ok(text[ix]);
      } else if ix == 2 {
        c := Ok(text[ix]);
      } else {
        return Err;
      }
    }
    if a.Err? || b.Err? || c.Err? {
      return Err;
    }
    r := Ok(NodeName(a.value, b.value, c.value));
  }

  // ---------------------------------------------------------------------------------------
  // The adjacency matrix

  /** One row per node and one cell per node in each row. */
  predicate Square(nodes: seq<seq<bool>>)
  {
    forall i :: 0 <= i < |nodes| ==> |nodes[i]| == |nodes|
  }

  predicate Symmetric(nodes: seq<seq<bool>>)
    requires Square(nodes)
  {
    forall i, j :: 0 <= i < |nodes| && 0 <= j < |nodes| ==> nodes[i][j] == nodes[j][i]
  }

  /** The names are numbered 0 to `n - 1`, each number given to one name. */
  predicate Numbered(names: map<NodeName, nat>, n: nat)
  {
    && |names| == n
    && (forall a :: a in names ==> names[a] < n)
    && (forall a, b :: a in names && b in names && names[a] == names[b] ==> a == b)
  }

  /** The fields of a `GraphBuilder` as a value. */
  datatype BuilderState = BuilderState(names: map<NodeName, nat>, nodes: seq<seq<bool>>)

  /** What every builder keeps: a number for each name and a node for each number, in a
      square symmetric matrix. */
  predicate Consistent(s: BuilderState)
  {
    Numbered(s.names, |s.nodes|) && Square(s.nodes) && Symmetric(s.nodes)
  }

  /** The matrix with one more node: every row gets a false cell at its end, and a new row
      of false cells is added. */
  function Grow(nodes: seq<seq<bool>>): (r: seq<seq<bool>>)
    requires Square(nodes)
    ensures |r| == |nodes| + 1 && Square(r)
    ensures forall i, j :: 0 <= i < |r| && 0 <= j < |r| ==>
      r[i][j] == (i < |nodes| && j < |nodes| && nodes[i][j])
  {
    seq(|nodes| + 1, i requires 0 <= i <= |nodes| =>
      if i < |nodes| then nodes[i] + [false] else seq(|nodes| + 1, _ => false))
  }

  /** The state after `insert_node(name)`: the new name gets the next number and a node with
      no neighbours. */
  function Inserted(s: BuilderState, name: NodeName): (r: BuilderState)
    requires Consistent(s) && name !in s.names
    ensures Consistent(r)
    ensures |r.nodes| == |s.nodes| + 1 && r.names == s.names[name := |s.nodes|]
  {
    var r := BuilderState(s.names[name := |s.names|], Grow(s.nodes));
    assert Numbered(r.names, |r.nodes|) by {
      forall a, b | a in r.names && b in r.names && r.names[a] == r.names[b]
        ensures a == b
      {
        if a != name && b != name {
          assert s.names[a] == s.names[b];
        }
      }
    }
    r
  }

  /** The number `node_ix(name)` returns: the known one, or the next one. */
  function IndexOf(s: BuilderState, name: NodeName): nat
  {
    if name in s.names then s.names[name] else |s.names|
  }

  /** The state after `node_ix(name)`: unchanged for a known name, otherwise with the name
      inserted. */
  function WithNode(s: BuilderState, name: NodeName): (r: BuilderState)
    requires Consistent(s)
    ensures Consistent(r) && name in r.names && r.names[name] == IndexOf(s, name)
    ensures forall a :: a in s.names ==> a in r.names && r.names[a] == s.names[a]
    ensures forall a :: a in r.names <==> a in s.names || a == name
  {
    if name in s.names then s else Inserted(s, name)
  }

  /** The matrix with cells `(i, j)` and `(j, i)` set and every other cell unchanged. */
  function Link(nodes: seq<seq<bool>>, i: nat, j: nat): (r: seq<seq<bool>>)
    requires Square(nodes) && i < |nodes| && j < |nodes|
    ensures |r| == |nodes| && Square(r)
    ensures forall k, l :: 0 <= k < |r| && 0 <= l < |r| ==>
      r[k][l] == (nodes[k][l] || (k == i && l == j) || (k == j && l == i))
    ensures Symmetric(nodes) ==> Symmetric(r)
  {
    var once := nodes[i := nodes[i][j := true]];
    once[j := once[j][i := true]]
  }

  /** The state after `connect(first, second)`: every known name keeps its number and the
      two names are added. */
  function Connected(s: BuilderState, first: NodeName, second: NodeName): (r: BuilderState)
    requires Consistent(s)
    ensures Consistent(r)
    ensures forall a :: a in r.names <==> a in s.names || a == first || a == second
    ensures forall a :: a in s.names ==> a in r.names && r.names[a] == s.names[a]
  {
    var withFirst := WithNode(s, first);
    var withBoth := WithNode(withFirst, second);
    BuilderState(withBoth.names, Link(withBoth.nodes, withBoth.names[first], withBoth.names[second]))
  }

  /** The cell of two known names. */
  predicate Adjacent(s: BuilderState, a: NodeName, b: NodeName)
    requires Consistent(s) && a in s.names && b in s.names
  {
    s.nodes[s.names[a]][s.names[b]]
  }

  /** After `node_ix(name)` a cell between two known names is set iff it was set before;
      a cell of the new node is not set. */
  lemma WithNodeCell(s: BuilderState, name: NodeName, a: NodeName, b: NodeName)
    requires Consistent(s) && a in WithNode(s, name).names && b in WithNode(s, name).names
    ensures Adjacent(WithNode(s, name), a, b) == (a in s.names && b in s.names && Adjacent(s, a, b))
  {
  }

  /** Connecting two names keeps every wire and wires exactly their two nodes together. */
  lemma ConnectedCell(s: BuilderState, first: NodeName, second: NodeName, a: NodeName, b: NodeName)
    requires Consistent(s) && a in Connected(s, first, second).names && b in Connected(s, first, second).names
    ensures Adjacent(Connected(s, first, second), a, b) <==>
      (a in s.names && b in s.names && Adjacent(s, a, b)) ||
      (a == first && b == second) || (a == second && b == first)
  {
    var withFirst := WithNode(s, first);
    var withBoth := WithNode(withFirst, second);
    WithNodeCell(withFirst, second, a, b);
    if a in withFirst.names && b in withFirst.names {
      WithNodeCell(s, first, a, b);
    }
  }

  // ---------------------------------------------------------------------------------------
  // Building from a list of wires

  /** A wire as a line lists it: the name before ": " and one name after it. */
  type Edge = (NodeName, NodeName)

  /** The state after connecting the wires in order, starting from `GraphBuilder::new`. */
  function Build(edges: seq<Edge>): (r: BuilderState)
    ensures Consistent(r)
  {
    if edges == [] then BuilderState(map[], [])
    else
      var last := edges[|edges| - 1];
      Connected(Build(edges[..|edges| - 1]), last.0, last.1)
  }

  lemma BuildExtend(edges: seq<Edge>, e: Edge)
    ensures Build(edges + [e]) == Connected(Build(edges), e.0, e.1)
  {
    assert (edges + [e])[..|edges|] == edges;
  }

  predicate Mentioned(edges: seq<Edge>, a: NodeName)
  {
    exists k :: 0 <= k < |edges| && (edges[k].0 == a || edges[k].1 == a)
  }

  predicate Linked(edges: seq<Edge>, a: NodeName, b: NodeName)
  {
    exists k :: 0 <= k < |edges| && (edges[k] == (a, b) || edges[k] == (b, a))
  }

  lemma MentionedStep(edges: seq<Edge>, a: NodeName)
    requires edges != []
    ensures var init, e := edges[..|edges| - 1], edges[|edges| - 1];
      Mentioned(edges, a) <==> Mentioned(init, a) || e.0 == a || e.1 == a
  {
    var init := edges[..|edges| - 1];
    if Mentioned(init, a) {
      var k :| 0 <= k < |init| && (init[k].0 == a || init[k].1 == a);
      assert edges[k] == init[k];
    }
    if Mentioned(edges, a) {
      var k :| 0 <= k < |edges| && (edges[k].0 == a || edges[k].1 == a);
      if k < |init| {
        assert init[k] == edges[k];
      }
    }
  }

  lemma LinkedStep(edges: seq<Edge>, a: NodeName, b: NodeName)
    requires edges != []
    ensures var init, e := edges[..|edges| - 1], edges[|edges| - 1];
      Linked(edges, a, b) <==> Linked(init, a, b) || e == (a, b) || e == (b, a)
  {
    var init, e := edges[..|edges| - 1], edges[|edges| - 1];
    if Linked(init, a, b) {
      var k :| 0 <= k < |init| && (init[k] == (a, b) || init[k] == (b, a));
      assert edges[k] == init[k];
    }
    if Linked(edges, a, b) {
      var k :| 0 <= k < |edges| && (edges[k] == (a, b) || edges[k] == (b, a));
      if k < |init| {
        assert init[k] == edges[k];
      }
    }
  }

  /** The builder knows exactly the names some wire mentions. */
  lemma {:induction false} BuildNames(edges: seq<Edge>, a: NodeName)
    ensures a in Build(edges).names <==> Mentioned(edges, a)
    decreases |edges|
  {
    if edges != [] {
      BuildNames(edges[..|edges| - 1], a);
      MentionedStep(edges, a);
    }
  }

  /** Two known names are adjacent iff some wire joins them, in either order. */
  lemma {:induction false} BuildCells(edges: seq<Edge>, a: NodeName, b: NodeName)
    requires a in Build(edges).names && b in Build(edges).names
    ensures Adjacent(Build(edges), a, b) <==> Linked(edges, a, b)
    decreases |edges|
  {
    var init := edges[..|edges| - 1];
    var e := edges[|edges| - 1];
    var s := Build(init);
    assert Build(edges) == Connected(s, e.0, e.1);
    assert Adjacent(Build(edges), a, b) <==>
      (a in s.names && b in s.names && Adjacent(s, a, b)) || e == (a, b) || e == (b, a) by {
      ConnectedCell(s, e.0, e.1, a, b);
    }
    assert (a in s.names && b in s.names && Adjacent(s, a, b)) <==> Linked(init, a, b) by {
      if a in s.names && b in s.names {
        BuildCells(init, a, b);
      } else {
        NotLinked(init, a, b);
      }
    }
    assert Linked(edges, a, b) <==> Linked(init, a, b) || e == (a, b) || e == (b, a) by {
      LinkedStep(edges, a, b);
    }
  }

  /** Two names the builder does not both know are on no wire together. */
  lemma NotLinked(edges: seq<Edge>, a: NodeName, b: NodeName)
    requires a !in Build(edges).names || b !in Build(edges).names
    ensures !Linked(edges, a, b)
  {
    BuildNames(edges, a);
    BuildNames(edges, b);
    if Linked(edges, a, b) {
      var k :| 0 <= k < |edges| && (edges[k] == (a, b) || edges[k] == (b, a));
      assert Mentioned(edges, a) && Mentioned(edges, b);
    }
  }

  // ---------------------------------------------------------------------------------------
  // The builder

  /** `GraphBuilder`: the number of each name seen so far and the adjacency matrix. */
  class GraphBuilder {
    var names: map<NodeName, nat>
    var nodes: seq<seq<bool>>

    function State(): BuilderState
      reads this
    {
      BuilderState(names, nodes)
    }

    /** `GraphBuilder::new`: no names and no nodes. */
    constructor ()
      ensures State() == Build([])
    {
      names := map[];
      nodes := [];
    }

    /** `insert_node`: the name gets the next number, every row one more false cell, and the
        matrix a new row of false cells. */
    method InsertNode(name: NodeName) returns (ix: nat)
      requires Consistent(State()) && name !in names
      modifies this
      ensures ix == old(|names|)
      ensures State() == Inserted(old(State()), name)
    {
      ix := |names|;
      names := names[name := ix];
      var newNode := [false];
      for i := 0 to |nodes|
        invariant names == old(names)[name := ix] && |nodes| == |old(nodes)|
        invariant |newNode| == i + 1 && forall k :: 0 <= k < |newNode| ==> !newNode[k]
        invariant forall k :: 0 <= k < |nodes| ==>
          nodes[k] == if k < i then old(nodes)[k] + [false] else old(nodes)[k]
      {
        nodes := nodes[i := nodes[i] + [false]];
        newNode := newNode + [false];
      }
      assert newNode == seq(|old(nodes)| + 1, _ => false);
      nodes := nodes + [newNode];
      assert forall k :: 0 <= k < |nodes| ==> nodes[k] == Grow(old(nodes))[k];
      assert nodes == Grow(old(nodes));
    }

    /** `node_ix`: the number of a known name, or of the name just inserted. */
    method NodeIx(name: NodeName) returns (ix: nat)
      requires Consistent(State())
      modifies this
      ensures ix == IndexOf(old(State()), name)
      ensures State() == WithNode(old(State()), name)
    {
      if name in names {
        ix := names[name];
      } else {
        ix := InsertNode(name);
      }
    }

    /** `connect`: both names get numbers and their two cells are set. */
    method Connect(first: NodeName, second: NodeName)
      requires Consistent(State())
      modifies this
      ensures State() == Connected(old(State()), first, second)
    {
      var i := NodeIx(first);
      var j := NodeIx(second);
      nodes := nodes[i := nodes[i][j := true]];
      nodes := nodes[j := nodes[j][i := true]];
    }
  }

  // ---------------------------------------------------------------------------------------
  // Reading the diagram

  /** The graph handed to the solver: the builder's matrix without the names. */
  datatype Graph = Graph(nodes: seq<seq<bool>>)

  /** The wires from `name` to each of `others`, in order. */
  function Pairs(name: NodeName, others: seq<NodeName>): seq<Edge>
  {
    seq(|others|, k requires 0 <= k < |others| => (name, others[k]))
  }

  /** The wires one line lists: the name before the first ": " joined to each
      white-space-separated name after it; `Err` when there is no ": " or a name is not
      three characters. */
  function LineEdges(line: String): Result<seq<Edge>>
  {
    match SplitOnce(line, ": ")
    case None => Err
    case Some((first, others)) =>
      match NodeNameOf(first)
      case Err => Err
      case Ok(name) =>
        match ParseEach(NodeNameOf, SplitWhitespace(others))
        case Err => Err
        case Ok(names) => Ok(Pairs(name, names))
  }

  /** The wires of all lines in order, or `Err` when any line fails. */
  function EdgesOf(lines: seq<String>): Result<seq<Edge>>
  {
    if lines == [] then Ok([])
    else
      match EdgesOf(lines[..|lines| - 1])
      case Err => Err
      case Ok(init) =>
        match LineEdges(lines[|lines| - 1])
        case Err => Err
        case Ok(more) => Ok(init + more)
  }

  /** What `Graph::from_str` produces: the matrix after connecting every listed wire, which
      is square and symmetric. */
  function GraphOf(text: String): (r: Result<Graph>)
    ensures r.Ok? ==> Square(r.value.nodes) && Symmetric(r.value.nodes)
  {
    match EdgesOf(Lines(text))
    case Err => Err
    case Ok(edges) => Ok(Graph(Build(edges).nodes))
  }

  /** One more line that reads extends the wires read so far. */
  lemma EdgesOfExtend(lines: seq<String>, l: nat)
    requires l < |lines| && EdgesOf(lines[..l]).Ok? && LineEdges(lines[l]).Ok?
    ensures EdgesOf(lines[..l + 1]) == Ok(EdgesOf(lines[..l]).value + LineEdges(lines[l]).value)
  {
    assert lines[..l + 1][..l] == lines[..l];
  }

  /** One line that does not read fails all of them. */
  lemma {:induction false} EdgesOfFails(lines: seq<String>, l: nat)
    requires l < |lines| && LineEdges(lines[l]).Err?
    ensures EdgesOf(lines).Err?
    decreases |lines|
  {
    var init := lines[..|lines| - 1];
    if l < |init| {
      assert init[l] == lines[l];
      EdgesOfFails(init, l);
    }
  }

  /** `Graph::from_str` demands ": " on every line. */
  lemma MissingSeparator(text: String, l: nat)
    requires l < |Lines(text)| && !Occurs(Lines(text)[l], ": ")
    ensures GraphOf(text).Err?
  {
    EdgesOfFails(Lines(text), l);
  }

  /** A line naming a component and, after ": ", the names it is wired to, separated by single
      spaces. */
  function LineText(name: NodeName, others: seq<NodeName>): String
  {
    NameText(name) + ": " + Join(seq(|others|, k requires 0 <= k < |others| => NameText(others[k])), " ")
  }

  /** Reading a written line gives back its wires, when the first name holds no ':' and the
      other names no white space. */
  lemma LineRoundTrip(name: NodeName, others: seq<NodeName>)
    requires ':' !in NameText(name)
    requires forall k, i :: 0 <= k < |others| && 0 <= i < 3 ==> !IsWhitespace(NameText(others[k])[i])
    ensures LineEdges(LineText(name, others)) == Ok(Pairs(name, others))
  {
    var texts := seq(|others|, k requires 0 <= k < |others| => NameText(others[k]));
    FindAfter(NameText(name), ": ", Join(texts, " "));
    SplitWhitespaceJoin(texts);
    forall k | 0 <= k < |texts| ensures NodeNameOf(texts[k]) == Ok(others[k]) {
      NameRoundTrip(others[k]);
    }
    ParseEachAll(NodeNameOf, texts, others);
  }

  lemma PairsExtend(done: seq<Edge>, name: NodeName, names: seq<NodeName>, other: NodeName)
    ensures done + Pairs(name, names + [other]) == done + Pairs(name, names) + [(name, other)]
  {
    assert Pairs(name, names + [other]) == Pairs(name, names) + [(name, other)];
  }

  /** The inner loop of `Graph::from_str`: each name after ": " is parsed and connected to
      the line's first name, until one does not parse. */
  method ConnectAll(builder: GraphBuilder, first: NodeName, others: seq<String>, ghost done: seq<Edge>)
      returns (ok: bool)
    requires builder.State() == Build(done)
    modifies builder
    ensures ok <==> ParseEach(NodeNameOf, others).Ok?
    ensures ok ==> builder.State() == Build(done + Pairs(first, ParseEach(NodeNameOf, others).value))
  {
    ghost var names: seq<NodeName> := [];
    assert done + Pairs(first, names) == done;
    for w := 0 to |others|
      invariant ParseEach(NodeNameOf, others[..w]) == Ok(names)
      invariant builder.State() == Build(done + Pairs(first, names))
    {
      var other := NodeNameFromStr(others[w]);
      if other.Err? {
        ParseEachFails(NodeNameOf, others, w);
        return false;
      }
      ParseEachExtend(NodeNameOf, others, w, other.value);
      assert Build(done + Pairs(first, names + [other.value])) ==
        Connected(Build(done + Pairs(first, names)), first, other.value) by {
        PairsExtend(done, first, names, other.value);
        BuildExtend(done + Pairs(first, names), (first, other.value));
      }
      builder.Connect(first, other.value);
      names := names + [other.value];
    }
    assert others[..|others|] == others;
    ok := true;
  }

  /** `Graph::from_str`: a fresh builder connects the first name of each line to every name
      after ": ", line by line and name by name. */
  method GraphFromStr(text: String) returns (r: Result<Graph>)
    ensures r == GraphOf(text)
  {
    var builder := new GraphBuilder();
    var lines := Lines(text);
    for l := 0 to |lines|
      invariant EdgesOf(lines[..l]).Ok?
      invariant builder.State() == Build(EdgesOf(lines[..l]).value)
    {
      var parts := SplitOnce(lines[l], ": ");
      if parts.None? {
        EdgesOfFails(lines, l);
        return Err;
      }
      var first := NodeNameFromStr(parts.value.0);
      if first.Err? {
        EdgesOfFails(lines, l);
        return Err;
      }
      var ok := ConnectAll(builder, first.value, SplitWhitespace(parts.value.1), EdgesOf(lines[..l]).value);
      if !ok {
        EdgesOfFails(lines, l);
        return Err;
      }
      EdgesOfExtend(lines, l);
    }
    assert lines[..|lines|] == lines;
    r := Ok(Graph(builder.nodes));
  }

  // ---------------------------------------------------------------------------------------
  // Cutting the graph

  /** Node `i` is retained, node `j` is removed, and a wire joins them. */
  predicate CrossesCut(nodes: seq<seq<bool>>, retained: seq<bool>, i: nat, j: nat)
    requires Square(nodes) && |retained| == |nodes| && i < |nodes| && j < |nodes|
  {
    retained[i] && nodes[i][j] && !retained[j]
  }

  /** The number of nodes `j < m` that cross the cut from node `i`. */
  function ExternalUpTo(nodes: seq<seq<bool>>, retained: seq<bool>, i: nat, m: nat): (r: nat)
    requires Square(nodes) && |retained| == |nodes| && i < |nodes| && m <= |nodes|
    ensures r <= m
    ensures !retained[i] ==> r == 0
  {
    if m == 0 then 0
    else ExternalUpTo(nodes, retained, i, m - 1) + (if CrossesCut(nodes, retained, i, m - 1) then 1 else 0)
  }

  /** `external_neighbours`: for each node, its wires across the cut when it is retained. */
  function Externals(nodes: seq<seq<bool>>, retained: seq<bool>): (r: seq<nat>)
    requires Square(nodes) && |retained| == |nodes|
    ensures |r| == |nodes|
  {
    seq(|nodes|, i requires 0 <= i < |nodes| => ExternalUpTo(nodes, retained, i, |nodes|))
  }

  function Sum(xs: seq<nat>): nat
  {
    if xs == [] then 0 else Sum(xs[..|xs| - 1]) + xs[|xs| - 1]
  }

  /** `total`: the sum of the external neighbour counts. */
  function CutSize(nodes: seq<seq<bool>>, retained: seq<bool>): nat
    requires Square(nodes) && |retained| == |nodes|
  {
    Sum(Externals(nodes, retained))
  }

  /** The wires across the cut, each as (retained end, removed end), from the first `m`
      retained ends. */
  ghost function CutWires(nodes: seq<seq<bool>>, retained: seq<bool>, m: nat): set<(nat, nat)>
    requires Square(nodes) && |retained| == |nodes| && m <= |nodes|
  {
    set i: nat, j: nat | i < m && j < |nodes| && CrossesCut(nodes, retained, i, j) :: (i, j)
  }

  /** The wires across the cut from node `i` to nodes below `m`. */
  ghost function RowWires(nodes: seq<seq<bool>>, retained: seq<bool>, i: nat, m: nat): set<(nat, nat)>
    requires Square(nodes) && |retained| == |nodes| && i < |nodes| && m <= |nodes|
  {
    set j: nat | j < m && CrossesCut(nodes, retained, i, j) :: (i, j)
  }

  lemma {:induction false} RowWiresCount(nodes: seq<seq<bool>>, retained: seq<bool>, i: nat, m: nat)
    requires Square(nodes) && |retained| == |nodes| && i < |nodes| && m <= |nodes|
    ensures |RowWires(nodes, retained, i, m)| == ExternalUpTo(nodes, retained, i, m)
    decreases m
  {
    if m > 0 {
      RowWiresCount(nodes, retained, i, m - 1);
      var below := RowWires(nodes, retained, i, m - 1);
      if CrossesCut(nodes, retained, i, m - 1) {
        assert RowWires(nodes, retained, i, m) == below + {(i, m - 1)};
        assert (i, m - 1) !in below;
      } else {
        assert RowWires(nodes, retained, i, m) == below;
      }
    }
  }

  lemma {:induction false} CutWiresCount(nodes: seq<seq<bool>>, retained: seq<bool>, m: nat)
    requires Square(nodes) && |retained| == |nodes| && m <= |nodes|
    ensures |CutWires(nodes, retained, m)| == Sum(Externals(nodes, retained)[..m])
    decreases m
  {
    var ext := Externals(nodes, retained);
    if m == 0 {
      assert CutWires(nodes, retained, 0) == {};
    } else {
      CutWiresCount(nodes, retained, m - 1);
      var below := CutWires(nodes, retained, m - 1);
      var row := RowWires(nodes, retained, m - 1, |nodes|);
      assert CutWires(nodes, retained, m) == below + row;
      assert below !! row;
      RowWiresCount(nodes, retained, m - 1, |nodes|);
      assert ext[..m][..m - 1] == ext[..m - 1];
    }
  }

  /** The total counts exactly the wires with one end retained and the other removed. */
  lemma CutSizeCounts(nodes: seq<seq<bool>>, retained: seq<bool>)
    requires Square(nodes) && |retained| == |nodes|
    ensures CutSize(nodes, retained) == |CutWires(nodes, retained, |nodes|)|
  {
    CutWiresCount(nodes, retained, |nodes|);
    assert Externals(nodes, retained)[..|nodes|] == Externals(nodes, retained);
  }

  /** `max_by` over the counts, unwrapped with 0: the index of the last largest count, or 0
      when there are no counts. */
  function LastMax(xs: seq<nat>): (r: nat)
    ensures |xs| == 0 ==> r == 0
    ensures |xs| > 0 ==> r < |xs|
    ensures forall k :: 0 <= k < |xs| ==> xs[k] <= xs[r]
    ensures forall k :: r < k < |xs| ==> xs[k] < xs[r]
  {
    if |xs| <= 1 then 0
    else
      var best := LastMax(xs[..|xs| - 1]);
      if xs[|xs| - 1] >= xs[best] then |xs| - 1 else best
  }

  /** The loop of `group_sizes_with_three_removed`, given `fuel` removals: it stops with the
      retained flags once exactly three wires cross the cut, and otherwise removes the node
      with the most wires across it. */
  function Cut(nodes: seq<seq<bool>>, retained: seq<bool>, fuel: nat): (r: Fuelled<seq<bool>>)
    requires Square(nodes) && |retained| == |nodes| > 0
    ensures CutSize(nodes, retained) == 3 ==> r == Finished(retained)
    ensures r.Finished? ==> |r.value| == |nodes| && CutSize(nodes, r.value) == 3
    ensures r.Finished? ==> forall k :: 0 <= k < |nodes| && r.value[k] ==> retained[k]
    decreases fuel
  {
    if CutSize(nodes, retained) == 3 then Finished(retained)
    else if fuel == 0 then OutOfFuel
    else Cut(nodes, retained[LastMax(Externals(nodes, retained)) := false], fuel - 1)
  }

  /** One pass that does not stop removes the chosen node and uses one unit of fuel. */
  lemma CutStep(nodes: seq<seq<bool>>, retained: seq<bool>, fuel: nat, candidate: nat)
    requires Square(nodes) && |retained| == |nodes| > 0
    requires CutSize(nodes, retained) != 3 && fuel > 0 && candidate == LastMax(Externals(nodes, retained))
    ensures candidate < |nodes|
    ensures Cut(nodes, retained, fuel) == Cut(nodes, retained[candidate := false], fuel - 1)
  {
  }

  /** The number of retained nodes. */
  function Kept(retained: seq<bool>): (k: nat)
    ensures k <= |retained|
  {
    if retained == [] then 0
    else Kept(retained[..|retained| - 1]) + (if retained[|retained| - 1] then 1 else 0)
  }

  /** Every node retained: `retained` as first pushed. */
  function AllRetained(n: nat): seq<bool>
  {
    seq(n, _ => true)
  }

  /** What `group_sizes_with_three_removed` returns: the sizes of the retained and the
      removed group once three wires cross the cut. */
  function GroupSizes(g: Graph, fuel: nat): (r: Fuelled<(nat, nat)>)
    requires Square(g.nodes) && |g.nodes| > 0
    ensures r.Finished? ==> r.value.0 + r.value.1 == |g.nodes|
  {
    match Cut(g.nodes, AllRetained(|g.nodes|), fuel)
    case OutOfFuel => OutOfFuel
    case Finished(retained) => Finished((Kept(retained), |g.nodes| - Kept(retained)))
  }

  /** With every node retained no wire crosses the cut. */
  lemma {:induction false} NothingRemoved(nodes: seq<seq<bool>>, m: nat)
    requires Square(nodes) && m <= |nodes|
    ensures Sum(Externals(nodes, AllRetained(|nodes|))[..m]) == 0
    decreases m
  {
    if m > 0 {
      var ext := Externals(nodes, AllRetained(|nodes|));
      NothingRemoved(nodes, m - 1);
      assert ext[..m][..m - 1] == ext[..m - 1];
      assert ext[m - 1] == 0 by {
        NoneCrossing(nodes, m - 1, |nodes|);
      }
    }
  }

  lemma {:induction false} NoneCrossing(nodes: seq<seq<bool>>, i: nat, m: nat)
    requires Square(nodes) && i < |nodes| && m <= |nodes|
    ensures ExternalUpTo(nodes, AllRetained(|nodes|), i, m) == 0
    decreases m
  {
    if m > 0 {
      NoneCrossing(nodes, i, m - 1);
    }
  }

  /** The first pass never stops, since nothing is removed yet, and removes the last node,
      the last of the equal counts. */
  lemma FirstRemoval(nodes: seq<seq<bool>>, fuel: nat)
    requires Square(nodes) && |nodes| > 0
    ensures Cut(nodes, AllRetained(|nodes|), fuel + 1) ==
      Cut(nodes, AllRetained(|nodes|)[|nodes| - 1 := false], fuel)
  {
    var all := AllRetained(|nodes|);
    var ext := Externals(nodes, all);
    NothingRemoved(nodes, |nodes|);
    assert ext[..|nodes|] == ext;
    forall k | 0 <= k < |nodes| ensures ext[k] == 0 {
      NoneCrossing(nodes, k, |nodes|);
    }
  }

  /** The inner sum of `external_neighbours` for node `i`. */
  method ExternalCount(nodes: seq<seq<bool>>, retained: array<bool>, i: nat) returns (count: nat)
    requires Square(nodes) && retained.Length == |nodes| && i < |nodes|
    ensures count == ExternalUpTo(nodes, retained[..], i, |nodes|)
  {
    var kept := retained[i];
    count := 0;
    for j := 0 to |nodes|
      invariant count == ExternalUpTo(nodes, retained[..], i, j)
    {
      if kept && nodes[i][j] && !retained[j] {
        count := count + 1;
      }
    }
  }

  /** `external_neighbours`, collected node by node. */
  method ExternalNeighbours(nodes: seq<seq<bool>>, retained: array<bool>) returns (external: seq<nat>)
    requires Square(nodes) && retained.Length == |nodes|
    ensures external == Externals(nodes, retained[..])
  {
    external := [];
    for i := 0 to |nodes|
      invariant external == Externals(nodes, retained[..])[..i]
    {
      var count := ExternalCount(nodes, retained, i);
      external := external + [count];
    }
  }

  /** `external_neighbours.iter().sum()`. */
  method SumOf(xs: seq<nat>) returns (total: nat)
    ensures total == Sum(xs)
  {
    total := 0;
    for k := 0 to |xs|
      invariant total == Sum(xs[..k])
    {
      assert xs[..k + 1][..k] == xs[..k];
      total := total + xs[k];
    }
    assert xs[..|xs|] == xs;
  }

  /** `max_by(|a, b| a.1.cmp(b.1))` unwrapped with 0: a later count at least as large as the
      best so far takes its place. */
  method LastMaxIndex(xs: seq<nat>) returns (candidate: nat)
    ensures candidate == LastMax(xs)
  {
    if |xs| == 0 {
      return 0;
    }
    candidate := 0;
    for k := 1 to |xs|
      invariant candidate == LastMax(xs[..k])
    {
      assert xs[..k + 1][..k] == xs[..k];
      if xs[k] >= xs[candidate] {
        candidate := k;
      }
    }
    assert xs[..|xs|] == xs;
  }

  /** `retained.iter().map(|r| usize::from(*r)).sum()`. */
  method CountKept(retained: array<bool>) returns (count: nat)
    ensures count == Kept(retained[..])
  {
    count := 0;
    for k := 0 to retained.Length
      invariant count == Kept(retained[..k])
    {
      assert retained[..k + 1][..k] == retained[..k];
      if retained[k] {
        count := count + 1;
      }
    }
    assert retained[..retained.Length] == retained[..];
  }

  /** The `retained` flags as first pushed: one true flag per node. */
  method AllRetainedArray(n: nat) returns (retained: array<bool>)
    ensures fresh(retained) && retained[..] == AllRetained(n)
  {
    retained := new bool[n];
    for i := 0 to n
      invariant forall k :: 0 <= k < i ==> retained[k]
    {
      retained[i] := true;
    }
  }

  /** The `loop` of `group_sizes_with_three_removed`, with at most `fuel` removals: true
      when it stopped at a cut of three wires, with `retained` as the loop left it. */
  method RemoveUntilCut(nodes: seq<seq<bool>>, retained: array<bool>, fuel: nat) returns (stopped: bool)
    requires Square(nodes) && retained.Length == |nodes| > 0
    modifies retained
    ensures Cut(nodes, old(retained[..]), fuel) == if stopped then Finished(retained[..]) else OutOfFuel
  {
    var removals := 0;
    while true
      invariant removals <= fuel
      invariant Cut(nodes, retained[..], fuel - removals) == Cut(nodes, old(retained[..]), fuel)
      decreases fuel - removals
    {
      var external := ExternalNeighbours(nodes, retained);
      var total := SumOf(external);
      if total == 3 {
        return true;
      }
      if removals == fuel {
        return false;
      }
      var candidate := LastMaxIndex(external);
      ghost var before := retained[..];
      CutStep(nodes, before, fuel - removals, candidate);
      retained[candidate] := false;
      assert retained[..] == before[candidate := false];
      removals := removals + 1;
    }
  }

  /** `group_sizes_with_three_removed`, with at most `fuel` removals. The source indexes
      `retained` with the chosen node, which needs at least one node. */
  method GroupSizesWithThreeRemoved(g: Graph, fuel: nat) returns (r: Fuelled<(nat, nat)>)
    requires Square(g.nodes) && |g.nodes| > 0
    ensures r == GroupSizes(g, fuel)
  {
    var n := |g.nodes|;
    var retained := AllRetainedArray(n);
    var stopped := RemoveUntilCut(g.nodes, retained, fuel);
    if !stopped {
      return OutOfFuel;
    }
    var kept := CountKept(retained);
    r := Finished((kept, n - kept));
  }

  /** `a * b` on sizes. */
  function Product(a: nat, b: nat): nat
  {
    a * b
  }

  /** `part_one`: `None` when the text is not a graph, otherwise the product of the two group
      sizes, with at most `fuel` removals. */
  method PartOne(input: String, fuel: nat) returns (r: Fuelled<Option<nat>>)
    requires GraphOf(input).Ok? ==> |GraphOf(input).value.nodes| > 0
    ensures GraphOf(input).Err? ==> r == Finished(None)
    ensures GraphOf(input).Ok? ==>
      match GroupSizes(GraphOf(input).value, fuel)
      case OutOfFuel => r == OutOfFuel
      case Finished(sizes) => r == Finished(Some(Product(sizes.0, sizes.1)))
  {
    var graph := GraphFromStr(input);
    if graph.Err? {
      return Finished(None);
    }
    var sizes := GroupSizesWithThreeRemoved(graph.value, fuel);
    match sizes
    case OutOfFuel => r := OutOfFuel;
    case Finished((a, b)) => r := Finished(Some(Product(a, b)));
  }
}
