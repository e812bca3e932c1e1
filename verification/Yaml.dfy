/** YAML nodes as the OpenAPI composer sees them. */
module Yaml {
  import opened Options

  datatype Kind = MappingNode | ScalarNode | SequenceNode | AliasNode

  /** A mapping node holds its keys and values alternately in `content`. */
  datatype Node = Node(kind: Kind, tag: string, value: string, content: seq<Node>)

  function FindPair(content: seq<Node>, key: string): Option<Node> {
    if |content| < 2 then None
    else if content[0].value == key then Some(content[1])
    else FindPair(content[2..], key)
  }

  /** `mappingEntry` on a node that is only read. */
  function MappingEntry(node: Node, key: string): Option<Node> {
    if node.kind != MappingNode then None else FindPair(node.content, key)
  }

  predicate MappingHas(node: Node, key: string) { MappingEntry(node, key).Some? }

  function ScalarMappingValue(node: Node, key: string): string {
    match MappingEntry(node, key)
    case None => ""
    case Some(v) => if v.kind == ScalarNode then v.value else ""
  }

  /** The `k`th pair is the first one with the key. */
  ghost predicate FirstWithKey(content: seq<Node>, key: string, k: nat) {
    2 * k + 1 < |content| && content[2 * k].value == key && forall j :: 0 <= j < k ==> content[2 * j].value != key
  }

  lemma {:induction false} FindPairIff(content: seq<Node>, key: string, v: Node)
    ensures FindPair(content, key) == Some(v) <==>
      exists k: nat :: FirstWithKey(content, key, k) && v == content[2 * k + 1]
  {
    if |content| >= 2 {
      if content[0].value == key {
        assert FirstWithKey(content, key, 0) && content[2 * 0].value == key;
      } else {
        var rest := content[2..];
        FindPairIff(rest, key, v);
        forall k: nat ensures FirstWithKey(rest, key, k) <==> FirstWithKey(content, key, k + 1) {
          LaterPair(content, key, k);
        }
        forall k: nat | FirstWithKey(content, key, k) ensures k > 0 && FirstWithKey(rest, key, k - 1) {
          assert k > 0;
          assert (k - 1) + 1 == k;
        }
        if k: nat :| FirstWithKey(rest, key, k) && v == rest[2 * k + 1] {
          assert FirstWithKey(content, key, k + 1) && v == content[2 * (k + 1) + 1];
        }
      }
    }
  }

  lemma LaterPair(content: seq<Node>, key: string, k: nat)
    requires |content| >= 2 && content[0].value != key
    ensures FirstWithKey(content[2..], key, k) <==> FirstWithKey(content, key, k + 1)
  {
    var rest := content[2..];
    assert forall j :: 0 <= j && 2 * j < |rest| ==> rest[2 * j] == content[2 * (j + 1)];
    if FirstWithKey(rest, key, k) {
      forall j | 0 <= j < k + 1 ensures content[2 * j].value != key {
        if j > 0 { assert rest[2 * (j - 1)] == content[2 * j]; }
      }
    }
    if FirstWithKey(content, key, k + 1) {
      forall j | 0 <= j < k ensures rest[2 * j].value != key { assert content[2 * (j + 1)].value != key; }
    }
  }

  /** The value of a key is that of its first pair, and only mappings have any. */
  lemma EntryIff(node: Node, key: string, v: Node)
    ensures MappingEntry(node, key) == Some(v) <==>
      node.kind == MappingNode && exists k: nat :: FirstWithKey(node.content, key, k) && v == node.content[2 * k + 1]
  {
    FindPairIff(node.content, key, v);
  }

  ghost predicate HasText(node: Node, text: string) { node.kind == ScalarNode && node.value == text != "" }

  /** The text of a key is that of its first value, if that is a scalar. */
  lemma ScalarIff(node: Node, key: string, text: string)
    requires text != ""
    ensures ScalarMappingValue(node, key) == text <==>
      node.kind == MappingNode
      && exists k: nat :: FirstWithKey(node.content, key, k) && HasText(node.content[2 * k + 1], text)
  {
    match MappingEntry(node, key)
    case None =>
      forall k: nat | node.kind == MappingNode ensures !FirstWithKey(node.content, key, k) {
        if FirstWithKey(node.content, key, k) { EntryIff(node, key, node.content[2 * k + 1]); }
      }
    case Some(v) =>
      EntryIff(node, key, v);
      forall k: nat | node.kind == MappingNode && FirstWithKey(node.content, key, k)
        ensures node.content[2 * k + 1] == v
      {
        EntryIff(node, key, node.content[2 * k + 1]);
      }
  }

  lemma GeneratedIff(operation: Node)
    ensures Generated(operation) <==>
      operation.kind == MappingNode && exists k: nat :: FirstWithKey(operation.content, "x-generated-module", k)
  {
    match MappingEntry(operation, "x-generated-module")
    case None =>
      forall k: nat | operation.kind == MappingNode ensures !FirstWithKey(operation.content, "x-generated-module", k) {
        if FirstWithKey(operation.content, "x-generated-module", k) {
          EntryIff(operation, "x-generated-module", operation.content[2 * k + 1]);
        }
      }
    case Some(v) => EntryIff(operation, "x-generated-module", v);
  }

  /** An operation written by the module generator rather than by hand. */
  predicate Generated(operation: Node) { MappingHas(operation, "x-generated-module") }

  /** `cloneNode`: a deep copy. */
  function Clone(node: Node): Node
    decreases node
  {
    node.(content := CloneAll(node.content))
  }

  function CloneAll(nodes: seq<Node>): seq<Node>
    decreases nodes
  {
    if nodes == [] then [] else [Clone(nodes[0])] + CloneAll(nodes[1..])
  }

  /** A deep copy is indistinguishable from the node it was made from. */
  lemma {:induction false} CloneIsCopy(node: Node)
    ensures Clone(node) == node
    decreases node
  {
    CloneAllIsCopy(node.content);
  }

  lemma {:induction false} CloneAllIsCopy(nodes: seq<Node>)
    ensures CloneAll(nodes) == nodes
    decreases nodes
  {
    if nodes != [] {
      CloneIsCopy(nodes[0]);
      CloneAllIsCopy(nodes[1..]);
      assert nodes == [nodes[0]] + nodes[1..];
    }
  }
}
