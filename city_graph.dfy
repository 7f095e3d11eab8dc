/** The city road graph: vertices labelled by characters, undirected weighted roads, and the
    shortest-route query between two labels. */
module City {
  import opened Graphs
  import opened Dijkstra

  /** Why an operation on the graph was refused (the conditions on which the program exits). */
  datatype GraphError =
    | NameCountMismatch(given: nat, expected: nat)  // a label list whose length is not the vertex count
    | UnknownVertex(name: char)                     // a label with no vertex

  /** The result of an operation that yields a value, or the error it was refused with. */
  datatype Result<T> = Ok(value: T) | Err(error: GraphError)

  /** The result of an operation that only changes the graph. */
  datatype Outcome = Done | Failed(error: GraphError)

  /** The label map after storing `names[i] -> i` for `i` in increasing order on top of `m`. */
  function Install(m: map<char, nat>, names: seq<char>): map<char, nat> {
    if names == [] then m
    else Install(m, names[..|names| - 1])[names[|names| - 1] := |names| - 1]
  }

  /** Installing the labels adds exactly the labels of `names`; each one is sent to the position of
      its last occurrence; labels that were mapped before and do not occur keep their index. */
  lemma {:induction false} InstallLastWins(m: map<char, nat>, names: seq<char>)
    ensures forall c :: c in Install(m, names) <==> c in m || c in names
    ensures forall c :: c in names ==>
      Install(m, names)[c] < |names| && names[Install(m, names)[c]] == c &&
      forall j :: Install(m, names)[c] < j < |names| ==> names[j] != c
    ensures forall c :: c in m && c !in names ==> Install(m, names)[c] == m[c]
  {
    if names != [] {
      var k := |names| - 1;
      var init := names[..k];
      InstallLastWins(m, init);
      assert names == init + [names[k]];
      forall c | c in names && c != names[k]
        ensures c in init
      {
        var i :| 0 <= i < |names| && names[i] == c;
        assert init[i] == c;
      }
    }
  }

  /** The graph component: one adjacency list and one label per vertex, and the label-to-index map. */
  class CityGraph {
    var adjList: Graph
    var vertexNames: seq<char>
    var vertexIndexMap: map<char, nat>
    const numVertices: nat

    /** The class invariant: one list and one label per vertex, arcs inside the graph and symmetric
        (every road is stored from both ends), labels map to vertices, and a label that a vertex
        carries maps to a vertex carrying it. */
    ghost predicate Valid()
      reads this
    {
      |adjList| == numVertices && |vertexNames| == numVertices &&
      WellFormed(adjList) && Symmetric(adjList) &&
      (forall c :: c in vertexIndexMap ==> vertexIndexMap[c] < numVertices) &&
      (forall c :: c in vertexIndexMap && c in vertexNames ==> vertexNames[vertexIndexMap[c]] == c)
    }

    /** A graph of `vertices` vertices, each with an empty list of roads and the null label, and no
        label mapped. */
    constructor (vertices: nat)
      ensures Valid()
      ensures numVertices == vertices
      ensures |adjList| == vertices && forall x :: 0 <= x < vertices ==> adjList[x] == []
      ensures vertexNames == seq(vertices, _ => '\0') && vertexIndexMap == map[]
    {
      numVertices := vertices;
      adjList := seq(vertices, _ => []);
      vertexNames := seq(vertices, _ => '\0');
      vertexIndexMap := map[];
    }

    /** Gives the vertices the labels `names`, in order, and maps each label to its vertex; a list of
        the wrong length is refused and changes nothing. The map is not cleared first. */
    method SetVertexNames(names: seq<char>) returns (outcome: Outcome)
      requires Valid()
      modifies this
      ensures Valid()
      ensures |names| != numVertices ==>
        outcome == Failed(NameCountMismatch(|names|, numVertices)) &&
        adjList == old(adjList) && vertexNames == old(vertexNames) && vertexIndexMap == old(vertexIndexMap)
      ensures |names| == numVertices ==>
        outcome == Done && adjList == old(adjList) && vertexNames == names &&
        vertexIndexMap == Install(old(vertexIndexMap), names)
      ensures |names| == numVertices ==> forall c :: c in names ==>
        VertexNameToIndex(c).Ok? && names[VertexNameToIndex(c).value] == c &&
        forall j :: VertexNameToIndex(c).value < j < |names| ==> names[j] != c
    {
      if |names| != numVertices {
        return Failed(NameCountMismatch(|names|, numVertices));
      }
      vertexNames := names;
      for i := 0 to numVertices
        invariant vertexNames == names && adjList == old(adjList)
        invariant vertexIndexMap == Install(old(vertexIndexMap), names[..i])
      {
        assert names[..i + 1][..i] == names[..i];
        vertexIndexMap := vertexIndexMap[names[i] := i];
      }
      assert names[..numVertices] == names;
      InstallLastWins(old(vertexIndexMap), names);
      outcome := Done;
    }

    /** The vertex a label names: the mapped index, always a vertex, carrying that label when any
        vertex does; an unmapped label is an error, never a default index. */
    function VertexNameToIndex(name: char): (r: Result<nat>)
      requires Valid()
      reads this
      ensures r.Ok? <==> name in vertexIndexMap
      ensures r.Ok? ==> r.value < numVertices && (name in vertexNames ==> vertexNames[r.value] == name)
      ensures r.Err? ==> r.error == UnknownVertex(name)
    {
      if name in vertexIndexMap then Ok(vertexIndexMap[name]) else Err(UnknownVertex(name))
    }

    /** Adds the road `u`-`v` of weight `time`: one arc at the end of each endpoint's list. An unknown
        label (the first endpoint is resolved first) is refused and changes nothing. */
    method AddRoad(u: char, v: char, time: int) returns (outcome: Outcome)
      requires Valid()
      modifies this
      ensures Valid()
      ensures vertexNames == old(vertexNames) && vertexIndexMap == old(vertexIndexMap)
      ensures u !in vertexIndexMap ==> outcome == Failed(UnknownVertex(u)) && adjList == old(adjList)
      ensures u in vertexIndexMap && v !in vertexIndexMap ==>
        outcome == Failed(UnknownVertex(v)) && adjList == old(adjList)
      ensures u in vertexIndexMap && v in vertexIndexMap ==>
        outcome == Done && adjList == WithRoad(old(adjList), vertexIndexMap[u], vertexIndexMap[v], time)
    {
      var uIndex := VertexNameToIndex(u);
      if uIndex.Err? {
        return Failed(uIndex.error);
      }
      var vIndex := VertexNameToIndex(v);
      if vIndex.Err? {
        return Failed(vIndex.error);
      }
      var ui, vi := uIndex.value, vIndex.value;
      RoadKeepsWellFormed(adjList, ui, vi, time);
      RoadKeepsSymmetry(adjList, ui, vi, time);
      adjList := adjList[ui := adjList[ui] + [Arc(vi, time)]];
      adjList := adjList[vi := adjList[vi] + [Arc(ui, time)]];
      outcome := Done;
    }

    /** The shortest route between two labelled vertices (start resolved first), or "no path"; an
        unknown label is an error. */
    method FindShortestPath(startVertex: char, endVertex: char) returns (r: Result<Route>)
      requires Valid() && NonNegative(adjList)
      ensures startVertex !in vertexIndexMap ==> r == Err(UnknownVertex(startVertex))
      ensures startVertex in vertexIndexMap && endVertex !in vertexIndexMap ==> r == Err(UnknownVertex(endVertex))
      ensures startVertex in vertexIndexMap && endVertex in vertexIndexMap ==>
        r.Ok? && ShortestAnswer(adjList, vertexIndexMap[startVertex], vertexIndexMap[endVertex], r.value)
    {
      var startIndex := VertexNameToIndex(startVertex);
      if startIndex.Err? {
        return Err(startIndex.error);
      }
      var endIndex := VertexNameToIndex(endVertex);
      if endIndex.Err? {
        return Err(endIndex.error);
      }
      var route := ShortestRoute(adjList, startIndex.value, endIndex.value);
      return Ok(route);
    }
  }
}
