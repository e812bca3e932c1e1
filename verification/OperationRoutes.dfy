/** `operationRoutes`: consecutive operations of one path become one route of the rendered contract. */
module OperationRoutes {
  import opened SchemaTypes
  import opened Ordering
  import opened Normalize

  datatype Route = Route(path: string, methods: seq<APIOperation>)

  function Flattened(routes: seq<Route>): seq<APIOperation> {
    if routes == [] then [] else Flattened(routes[..|routes| - 1]) + routes[|routes| - 1].methods
  }

  /** Each route has operations, all of its own path, and the next route has another path. */
  ghost predicate Grouped(routes: seq<Route>) {
    && (forall k :: 0 <= k < |routes| ==> OfOnePath(routes[k]))
    && (forall k :: 0 < k < |routes| ==> routes[k - 1].path != routes[k].path)
  }

  ghost predicate OfOnePath(r: Route) {
    r.methods != [] && forall i :: 0 <= i < |r.methods| ==> r.methods[i].path == r.path
  }

  /** No operation is lost, repeated or moved. */
  method GroupRoutes(ops: seq<APIOperation>) returns (result: seq<Route>)
    ensures Flattened(result) == ops && Grouped(result)
  {
    result := [];
    for i := 0 to |ops|
      invariant Flattened(result) == ops[..i] && Grouped(result)
    {
      var op := ops[i];
      assert ops[..i + 1] == ops[..i] + [op];
      ghost var before := result;
      if |result| == 0 || result[|result| - 1].path != op.path {
        result := result + [Route(op.path, [op])];
        assert result[..|result| - 1] == before;
      } else {
        var last := |result| - 1;
        result := result[last := Route(op.path, result[last].methods + [op])];
        assert result[..last] == before[..last];
        assert Flattened(before) == Flattened(before[..last]) + before[last].methods;
      }
    }
    assert ops[..|ops|] == ops;
  }

  lemma {:induction false} HeadOfRoute(routes: seq<Route>, k: nat) returns (n: nat)
    requires k < |routes| && Grouped(routes)
    ensures n < |Flattened(routes)| && Flattened(routes)[n] == routes[k].methods[0]
    ensures n == |Flattened(routes[..k])|
  {
    var last := |routes| - 1;
    n := |Flattened(routes[..k])|;
    if k < last {
      var front := routes[..last];
      assert forall j :: 0 <= j < |front| ==> front[j] == routes[j];
      var m := HeadOfRoute(front, k);
      assert front[..k] == routes[..k];
    } else {
      assert OfOnePath(routes[k]);
    }
  }

  lemma {:induction false} FlattenedGrows(routes: seq<Route>, k: nat)
    requires k < |routes| && Grouped(routes)
    ensures |Flattened(routes[..k])| < |Flattened(routes[..k + 1])|
  {
    assert routes[..k + 1][..k] == routes[..k];
    assert OfOnePath(routes[k]);
  }

  lemma {:induction false} EarlierHead(routes: seq<Route>, i: nat, j: nat)
    requires i < j < |routes| && Grouped(routes)
    ensures |Flattened(routes[..i])| < |Flattened(routes[..j])|
  {
    FlattenedGrows(routes, j - 1);
    if i < j - 1 { EarlierHead(routes, i, j - 1); }
  }

  /** The operations of an accepted schema are sorted by path, so each path has exactly one route:
      the rendered contract never repeats a path key. */
  lemma {:induction false} OneRoutePerPath(ops: seq<APIOperation>, routes: seq<Route>, i: nat, j: nat)
    requires SortedBy(RouteLe, ops) && Flattened(routes) == ops && Grouped(routes) && i < j < |routes|
    ensures routes[i].path != routes[j].path
  {
    var a := HeadOfRoute(routes, i);
    var b := HeadOfRoute(routes, j - 1);
    var c := HeadOfRoute(routes, j);
    assert OfOnePath(routes[i]) && OfOnePath(routes[j - 1]) && OfOnePath(routes[j]);
    EarlierHead(routes, j - 1, j);
    if i < j - 1 { EarlierHead(routes, i, j - 1); }
    DifferentPathBetween(ops, a, b, c);
  }

  /** In sorted operations no path comes back after another one. */
  lemma DifferentPathBetween(ops: seq<APIOperation>, a: nat, b: nat, c: nat)
    requires SortedBy(RouteLe, ops) && a <= b < c < |ops| && ops[b].path != ops[c].path
    ensures ops[a].path != ops[c].path
  {
    if a < b {
      assert RouteLe(ops[a], ops[b]) && RouteLe(ops[b], ops[c]);
      StrLeTotal(ops[a].path, ops[b].path);
    }
  }
}
