/**
 Preparing the loaded model: every mesh of the scene graph, in traversal
 order, becomes a part with its own copy of its material, and a mesh without
 a name gets a fallback name.
 */
module Loading {
  import opened Shoe
  import opened Handlers

  /** A node of the loaded scene graph, flattened in traversal order. */
  datatype Node = Node(name: string, isMesh: bool, material: Material)

  /** The name given to an unnamed mesh. The traversal callback receives only
      the node, so the interpolated index is always `undefined`. */
  const FallbackName := "Part undefined"

  /** The mesh nodes of `nodes`, in order. */
  function Meshes(nodes: seq<Node>): (ms: seq<Node>)
    ensures |ms| <= |nodes|
    ensures forall k :: 0 <= k < |ms| ==> ms[k].isMesh
  {
    if nodes == [] then []
    else (if nodes[0].isMesh then [nodes[0]] else []) + Meshes(nodes[1..])
  }

  /** A node's name after loading: never empty, and the original name when it had one. */
  function Label(name: string): (named: string)
    ensures named != ""
    ensures name != "" ==> named == name
    ensures name == "" ==> named == FallbackName
  {
    if name == "" then FallbackName else name
  }

  /** The part a mesh becomes: its label and (a copy of) its material. */
  function AsPart(n: Node): (p: Part)
    ensures p.name != "" && p.material == n.material
    ensures n.name != "" ==> p.name == n.name
  {
    Part(Label(n.name), n.material)
  }

  /** Filtering distributes over appending one node at the end. */
  lemma {:induction false} MeshesSnoc(nodes: seq<Node>, n: Node)
    ensures Meshes(nodes + [n]) == Meshes(nodes) + (if n.isMesh then [n] else [])
    decreases |nodes|
  {
    if nodes == [] {
      assert nodes + [n] == [n];
    } else {
      assert (nodes + [n])[1..] == nodes[1..] + [n];
      MeshesSnoc(nodes[1..], n);
    }
  }

  /** The meshes kept are exactly the mesh nodes of the scene graph. */
  lemma {:induction false} MeshesExactly(nodes: seq<Node>, n: Node)
    ensures n in Meshes(nodes) <==> n in nodes && n.isMesh
    decreases |nodes|
  {
    if nodes != [] {
      MeshesExactly(nodes[1..], n);
      assert nodes == [nodes[0]] + nodes[1..];
    }
  }

  /** Walks the scene graph once and turns each mesh into a part. */
  method LoadParts(nodes: seq<Node>) returns (parts: seq<Part>)
    ensures |parts| == |Meshes(nodes)|
    ensures forall k :: 0 <= k < |parts| ==> parts[k] == AsPart(Meshes(nodes)[k])
  {
    parts := [];
    var i := 0;
    while i < |nodes|
      invariant 0 <= i <= |nodes|
      invariant |parts| == |Meshes(nodes[..i])|
      invariant forall k :: 0 <= k < |parts| ==> parts[k] == AsPart(Meshes(nodes[..i])[k])
    {
      assert nodes[..i + 1] == nodes[..i] + [nodes[i]];
      MeshesSnoc(nodes[..i], nodes[i]);
      if nodes[i].isMesh {
        parts := parts + [AsPart(nodes[i])];
      }
      i := i + 1;
    }
    assert nodes[..i] == nodes;
  }

  /** After loading every part has a non-empty name, so the label published
      on selection is always the part's own name, never the "Unnamed part" text. */
  lemma LoadedPartsShowOwnName(n: Node)
    ensures DisplayName(AsPart(n).name) == AsPart(n).name
    ensures DisplayName(AsPart(n).name) != UnnamedLabel || n.name == UnnamedLabel
  {
  }
}
