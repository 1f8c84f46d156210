/** Reading JSON-LD blocks: the explicit-stack walk of `iter_jsonld` (app/catalog_sync/html.py). */
module JsonLd {
  import opened Text

  datatype Json =
    | Scalar(text: string)
    | List(items: seq<Json>)
    | Object(fields: seq<Field>)

  datatype Field = Field(key: string, value: Json)

  const GRAPH := "@graph"

  /** `node["@graph"]`, when the object has that key. */
  function Graph(node: Json): (graph: Option<Json>)
    requires node.Object?
    ensures IsLastNamed(node.fields, "@graph", graph)
    ensures graph.Some? ==> graph.value < node && Weight(graph.value) <= WeightOfFields(node.fields)
  {
    FieldNamed(node.fields, GRAPH)
  }

  /** The value of the key, if it is there; of a key written twice, the last one. */
  ghost predicate IsLastNamed(fields: seq<Field>, key: string, found: Option<Json>) {
    match found
    case None => forall i :: 0 <= i < |fields| ==> fields[i].key != key
    case Some(value) => exists i :: && 0 <= i < |fields| && fields[i] == Field(key, value)
                                    && forall j :: i < j < |fields| ==> fields[j].key != key
  }

  function FieldNamed(fields: seq<Field>, key: string): (found: Option<Json>)
    ensures IsLastNamed(fields, key, found)
    ensures found.Some? ==> Weight(found.value) <= WeightOfFields(fields)
  {
    if fields == [] then None
    else if fields[|fields| - 1].key == key then Some(fields[|fields| - 1].value)
    else FieldNamed(fields[..|fields| - 1], key)
  }

  // ---------- the specification: flattening by recursion ----------

  /** The objects of a document: an object comes before what its `@graph` holds, and the later
      elements of a list come before the earlier ones. */
  function Flatten(node: Json): seq<Json>
    decreases node, 1
  {
    match node
    case Scalar(_) => []
    case List(items) => FlattenBackwards(items)
    case Object(_) =>
      [node] + match Graph(node) case Some(graph) => Flatten(graph) case None => []
  }

  function FlattenBackwards(items: seq<Json>): seq<Json>
    decreases items, 0
  {
    if items == [] then []
    else Flatten(items[|items| - 1]) + FlattenBackwards(items[..|items| - 1])
  }

  // ---------- sizes, for termination ----------

  function Weight(node: Json): (w: nat)
    ensures w > 0
  {
    match node
    case Scalar(_) => 1
    case List(items) => 1 + WeightOfAll(items)
    case Object(fields) => 1 + WeightOfFields(fields)
  }

  function WeightOfAll(items: seq<Json>): nat {
    if items == [] then 0 else WeightOfAll(items[..|items| - 1]) + Weight(items[|items| - 1])
  }

  function WeightOfFields(fields: seq<Field>): nat {
    if fields == [] then 0 else WeightOfFields(fields[..|fields| - 1]) + Weight(fields[|fields| - 1].value)
  }

  lemma {:induction false} FlattenConcat(lower: seq<Json>, upper: seq<Json>)
    ensures FlattenBackwards(lower + upper) == FlattenBackwards(upper) + FlattenBackwards(lower)
  {
    if upper == [] {
      assert lower + upper == lower;
      assert FlattenBackwards(upper) == [];
    } else {
      var init, last := upper[..|upper| - 1], upper[|upper| - 1];
      FlattenConcat(lower, init);
      assert (lower + upper)[..|lower + upper| - 1] == lower + init;
      Regroup(Flatten(last), FlattenBackwards(init), FlattenBackwards(lower));
    }
  }

  lemma {:induction false} WeightConcat(lower: seq<Json>, upper: seq<Json>)
    ensures WeightOfAll(lower + upper) == WeightOfAll(lower) + WeightOfAll(upper)
  {
    if upper == [] {
      assert lower + upper == lower;
    } else {
      WeightConcat(lower, upper[..|upper| - 1]);
      assert (lower + upper)[..|lower + upper| - 1] == lower + upper[..|upper| - 1];
    }
  }

  // ---------- the walk ----------

  lemma PushedList(below: seq<Json>, node: Json)
    requires node.List?
    ensures FlattenBackwards(below + node.items) == Flatten(node) + FlattenBackwards(below)
    ensures WeightOfAll(below + node.items) < WeightOfAll(below) + Weight(node)
  {
    FlattenConcat(below, node.items);
    WeightConcat(below, node.items);
  }

  lemma PushedGraph(below: seq<Json>, node: Json)
    requires node.Object? && Graph(node).Some?
    ensures FlattenBackwards(below + [Graph(node).value]) == Flatten(Graph(node).value) + FlattenBackwards(below)
    ensures WeightOfAll(below + [Graph(node).value]) < WeightOfAll(below) + Weight(node)
  {
  }

  lemma Yielding(yielded: seq<Json>, node: Json, inner: seq<Json>, below: seq<Json>)
    ensures yielded + [node] + (inner + below) == yielded + ([node] + inner + below)
    ensures [] + below == below
  {
  }

  /** One block: pop the top of the stack, push what it contains, yield it if it is an object.
      It ends on every document and yields exactly the recursive flattening, in its order. */
  method Walk(data: Json) returns (yielded: seq<Json>)
    ensures yielded == Flatten(data)
  {
    yielded := [];
    var stack := [data];
    while stack != []
      invariant yielded + FlattenBackwards(stack) == Flatten(data)
      decreases WeightOfAll(stack)
    {
      var node := stack[|stack| - 1];
      stack := stack[..|stack| - 1];
      match node {
        case List(items) =>
          PushedList(stack, node);
          stack := stack + items;
        case Object(_) =>
          var graph := Graph(node);
          Yielding(yielded, node, if graph.Some? then Flatten(graph.value) else [], FlattenBackwards(stack));
          yielded := yielded + [node];
          if graph.Some? {
            PushedGraph(stack, node);
            stack := stack + [graph.value];
          }
        case Scalar(_) =>
      }
    }
  }

  /** Every block of a page; one that could not be parsed (None) is skipped. */
  method IterJsonld(blocks: seq<Option<Json>>) returns (yielded: seq<Json>)
    ensures yielded == FlattenBlocks(blocks)
  {
    yielded := [];
    for i := 0 to |blocks|
      invariant yielded == FlattenBlocks(blocks[..i])
    {
      assert blocks[..i + 1][..i] == blocks[..i];
      if blocks[i].Some? {
        var objects := Walk(blocks[i].value);
        yielded := yielded + objects;
      }
    }
    assert blocks[..|blocks|] == blocks;
  }

  function FlattenBlocks(blocks: seq<Option<Json>>): seq<Json> {
    if blocks == [] then []
    else
      FlattenBlocks(blocks[..|blocks| - 1]) +
      match blocks[|blocks| - 1] case Some(data) => Flatten(data) case None => []
  }

  // ---------- what flattening means ----------

  /** `node` is reachable from `root` through lists and `@graph` only. */
  ghost predicate Within(node: Json, root: Json)
    decreases root
  {
    || node == root
    || match root
       case Scalar(_) => false
       case List(items) => exists i :: 0 <= i < |items| && Within(node, items[i])
       case Object(_) => Graph(root).Some? && Within(node, Graph(root).value)
  }

  /** The walk yields objects only, and each object reachable through lists and `@graph`. */
  lemma {:induction false} YieldsExactlyTheObjectsWithin(root: Json, node: Json)
    ensures node in Flatten(root) <==> node.Object? && Within(node, root)
    decreases root, 1
  {
    match root
    case Scalar(_) =>
    case List(items) => YieldsFromList(items, node);
    case Object(_) =>
      if Graph(root).Some? {
        YieldsExactlyTheObjectsWithin(Graph(root).value, node);
      }
  }

  lemma {:induction false} YieldsFromList(items: seq<Json>, node: Json)
    ensures node in FlattenBackwards(items)
       <==> node.Object? && exists i :: 0 <= i < |items| && Within(node, items[i])
    decreases items, 0
  {
    if items != [] {
      var init, last := items[..|items| - 1], items[|items| - 1];
      YieldsFromList(init, node);
      YieldsExactlyTheObjectsWithin(last, node);
      assert forall i :: 0 <= i < |init| ==> init[i] == items[i];
      assert forall i :: 0 <= i < |items| ==> i == |items| - 1 || items[i] == init[i];
    }
  }
}
