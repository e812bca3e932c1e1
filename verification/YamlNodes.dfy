/** YAML nodes as the objects they are in memory, and the deep copy made of them. */
module YamlNodes {
  import opened Yaml

  class NodeObject {
    var kind: Kind
    var tag: string
    var value: string
    var content: seq<NodeObject>

    constructor (kind: Kind, tag: string, value: string, content: seq<NodeObject>)
      ensures this.kind == kind && this.tag == tag && this.value == value && this.content == content
    {
      this.kind, this.tag, this.value, this.content := kind, tag, value, content;
    }
  }

  /** The object and all objects below it are among `nodes` and spell out the value `t`.  Objects may be
      shared. */
  ghost predicate Holds(n: NodeObject, t: Node, nodes: set<NodeObject>)
    reads nodes
    decreases t
  {
    && n in nodes && n.kind == t.kind && n.tag == t.tag && n.value == t.value
    && HoldsAll(n.content, t.content, nodes)
  }

  ghost predicate HoldsAll(ns: seq<NodeObject>, ts: seq<Node>, nodes: set<NodeObject>)
    reads nodes
    decreases ts
  {
    |ns| == |ts| && forall i :: 0 <= i < |ts| ==> Holds(ns[i], ts[i], nodes)
  }

  /** More objects make no difference. */
  lemma {:induction false} HoldsAmongMore(n: NodeObject, t: Node, nodes: set<NodeObject>, more: set<NodeObject>)
    requires Holds(n, t, nodes) && nodes <= more
    ensures Holds(n, t, more)
    decreases t
  {
    forall i | 0 <= i < |t.content| ensures Holds(n.content[i], t.content[i], more) {
      HoldsAmongMore(n.content[i], t.content[i], nodes, more);
    }
  }

  /** Objects hold one value. */
  lemma {:induction false} HoldsOneValue(n: NodeObject, t: Node, u: Node, nodes: set<NodeObject>)
    requires Holds(n, t, nodes) && Holds(n, u, nodes)
    ensures t == u
    decreases t
  {
    forall i | 0 <= i < |t.content| ensures t.content[i] == u.content[i] {
      HoldsOneValue(n.content[i], t.content[i], u.content[i], nodes);
    }
  }

  /** `cloneNode`: the copy holds the value of the original, in new objects only. */
  method CloneNode(n: NodeObject, ghost t: Node, ghost nodes: set<NodeObject>)
    returns (copy: NodeObject, ghost copies: set<NodeObject>)
    requires Holds(n, t, nodes)
    ensures Holds(copy, t, copies) && fresh(copies) && copies !! nodes
    decreases t
  {
    var content := [];
    copies := {};
    for i := 0 to |n.content|
      invariant HoldsAll(content, t.content[..i], copies) && fresh(copies)
    {
      var child, more := CloneNode(n.content[i], t.content[i], nodes);
      var grown := copies + more;
      forall j | 0 <= j < i ensures Holds(content[j], t.content[j], grown) {
        HoldsAmongMore(content[j], t.content[j], copies, grown);
      }
      HoldsAmongMore(child, t.content[i], more, grown);
      content, copies := content + [child], grown;
    }
    copy := new NodeObject(n.kind, n.tag, n.value, content);
    ghost var all := copies + {copy};
    forall j | 0 <= j < |t.content| ensures Holds(content[j], t.content[j], all) {
      assert t.content[..|n.content|][j] == t.content[j];
      HoldsAmongMore(content[j], t.content[j], copies, all);
    }
    copies := all;
  }
}
