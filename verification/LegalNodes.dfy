/**
 Legal nodes: flat rows, immutable trees of rows, and the mutable objects that the
 parser and the tree assembler link together.
 */
module LegalNodes {
  import opened Prelude

  datatype NodeType =
    | DOCUMENT | BOOK | PART | CHAPTER | SECTION | ARTICLE | PARAGRAPH | CLAUSE | SUB_CLAUSE | ANNEX

  /** A node without its children: one row of the node table. */
  datatype FlatNode = FlatNode(
    id: string,
    versionId: string,
    parentId: Option<string>,
    nodeType: NodeType,
    chapter: Option<string>,
    article: Option<string>,
    paragraph: Option<string>,
    clause: Option<string>,
    subClause: Option<string>,
    number: Option<string>,
    title: Option<string>,
    sourceLocator: string,
    text: string,
    contentHash: string)

  datatype Tree = Tree(node: FlatNode, children: seq<Tree>)

  /** Pre-order listing of a tree, and of a forest. */
  function Flatten(t: Tree): (r: seq<FlatNode>)
    decreases t
  {
    [t.node] + FlattenAll(t.children)
  }

  function FlattenAll(ts: seq<Tree>): (r: seq<FlatNode>)
    decreases ts
  {
    if ts == [] then [] else Flatten(ts[0]) + FlattenAll(ts[1..])
  }

  function Heads(ts: seq<Tree>): (r: seq<FlatNode>)
    ensures |r| == |ts|
  {
    seq(|ts|, i requires 0 <= i < |ts| => ts[i].node)
  }

  function Ids(nodes: seq<FlatNode>): (r: seq<string>)
    ensures |r| == |nodes| && forall i :: 0 <= i < |r| ==> r[i] == nodes[i].id
  {
    seq(|nodes|, i requires 0 <= i < |nodes| => nodes[i].id)
  }

  function Locators(nodes: seq<FlatNode>): (r: seq<string>)
    ensures |r| == |nodes| && forall i :: 0 <= i < |r| ==> r[i] == nodes[i].sourceLocator
  {
    seq(|nodes|, i requires 0 <= i < |nodes| => nodes[i].sourceLocator)
  }

  ghost predicate UniqueIds(nodes: seq<FlatNode>) {
    forall i, j :: 0 <= i < j < |nodes| ==> nodes[i].id != nodes[j].id
  }

  /** No parent id is the empty string. */
  ghost predicate NoEmptyParents(nodes: seq<FlatNode>) {
    forall n :: n in nodes ==> n.parentId != Some("")
  }

  /** Neither an id nor a present parent id is the empty string. */
  ghost predicate NoEmptyIds(nodes: seq<FlatNode>) {
    NoEmptyParents(nodes) && forall n :: n in nodes ==> n.id != ""
  }

  /** The mutable node object: only its text, its content hash and its children change. */
  class LegalNode {
    const head: FlatNode
    var text: string
    var contentHash: string
    var children: seq<LegalNode>

    constructor (row: FlatNode)
      ensures Row() == row && head == row && children == []
    {
      head := row;
      text := row.text;
      contentHash := row.contentHash;
      children := [];
    }

    function Row(): (r: FlatNode)
      reads this
    {
      head.(text := text, contentHash := contentHash)
    }
  }

  /** The objects reachable from `n` have the shape and the rows of the tree `t`. */
  ghost predicate Represents(n: LegalNode, t: Tree, repr: set<LegalNode>)
    reads repr
    decreases t
  {
    n in repr && n.Row() == t.node && |n.children| == |t.children| &&
    forall i :: 0 <= i < |t.children| ==> Represents(n.children[i], t.children[i], repr)
  }

  ghost predicate RepresentsAll(ns: seq<LegalNode>, ts: seq<Tree>, repr: set<LegalNode>)
    reads repr
  {
    |ns| == |ts| && forall i :: 0 <= i < |ts| ==> Represents(ns[i], ts[i], repr)
  }
}
