/**
 * Flattening a Figma node tree into the flat component list the auditor
 * compares against: pruning hidden nodes and system bars, mapping node types,
 * re-basing coordinates on the requested frame, and choosing which nodes to
 * emit, in pre-order.
 */
module FigmaClient {
  import opened Basics

  /** An `absoluteBoundingBox`. */
  datatype Box = Box(x: real, y: real, width: real, height: real)

  /** A colour with channels in [0, 1]. */
  datatype Rgb = Rgb(r: real, g: real, b: real)

  /** An entry of `fills` or `strokes`; a key the entry lacks is `None`. */
  datatype Paint = Paint(paintType: Option<string>, visible: Option<bool>, color: Option<Rgb>)

  /** A node of the document tree; a missing `fills`, `strokes` or `children` is the empty list. */
  datatype Node = Node(name: Option<string>, nodeType: Option<string>, visible: Option<bool>, box: Option<Box>,
                       characters: Option<string>, fills: seq<Paint>, strokes: seq<Paint>, children: seq<Node>)

  /** The internal component types. */
  datatype Kind = Text | Button | Icon | Container

  /** `#RRGGBB`, kept as its three channel values. */
  datatype Hex = Hex(r: int, g: int, b: int)

  /** One emitted component, its position relative to the requested frame. */
  datatype Component = Component(name: Option<string>, kind: Kind, x: real, y: real, w: real, h: real,
                                 textContent: string, color: Option<Hex>)

  /** One value of the response's `nodes` dictionary. */
  datatype NodeEntry = NodeEntry(document: Option<Node>)

  /** The decoded response; `nodes` is `None` when the key is missing. */
  datatype Response = Response(nodes: Option<seq<NodeEntry>>)

  // ---------------------------------------------------------------------
  // Names
  // ---------------------------------------------------------------------

  function LowerChar(c: char): char {
    if 'A' <= c <= 'Z' then (c as int + 32) as char else c
  }

  /** `str.lower` on ASCII letters. */
  function Lower(s: string): (r: string)
    ensures |r| == |s|
    ensures forall i :: 0 <= i < |s| ==> r[i] == LowerChar(s[i])
  {
    if s == [] then [] else [LowerChar(s[0])] + Lower(s[1..])
  }

  /** `sub in s`. */
  predicate Contains(s: string, sub: string) {
    exists i :: 0 <= i <= |s| - |sub| && OccursAt(s, sub, i)
  }

  predicate OccursAt(s: string, sub: string, i: nat) {
    i + |sub| <= |s| && s[i..i + |sub|] == sub
  }

  /** `node.get("name", "").lower()`. */
  function LowerName(n: Node): string {
    Lower(if n.name.Some? then n.name.value else "")
  }

  /** A status bar, navigation bar or home indicator, judged by the lower-cased name. */
  predicate IsSystemBar(n: Node) {
    var name := LowerName(n);
    Contains(name, "status bar") || Contains(name, "navigation bar") || Contains(name, "home indicator")
  }

  /** The node is skipped together with its whole subtree. */
  predicate Pruned(n: Node) {
    n.visible == Some(false) || IsSystemBar(n)
  }

  // ---------------------------------------------------------------------
  // Type mapping and visuals
  // ---------------------------------------------------------------------

  /** The internal type of a node. */
  function KindOf(n: Node): (k: Kind)
    ensures k == Text <==> n.nodeType == Some("TEXT")
    ensures k == Icon <==> n.nodeType == Some("VECTOR") || n.nodeType == Some("BOOLEAN_OPERATION")
    ensures k == Button <==>
              (n.nodeType == Some("INSTANCE") || n.nodeType == Some("COMPONENT")) && Contains(LowerName(n), "button")
  {
    if n.nodeType == Some("TEXT") then Text
    else if n.nodeType == Some("VECTOR") || n.nodeType == Some("BOOLEAN_OPERATION") then Icon
    else if (n.nodeType == Some("INSTANCE") || n.nodeType == Some("COMPONENT")) && Contains(LowerName(n), "button")
    then Button
    else Container
  }

  /** The characters of a text node; every other node has empty text. */
  function TextOf(n: Node): string {
    if n.nodeType == Some("TEXT") && n.characters.Some? then n.characters.value else ""
  }

  /** A `SOLID` fill not marked invisible. */
  predicate VisibleSolid(p: Paint) {
    p.paintType == Some("SOLID") && p.visible != Some(false)
  }

  /** The index of the first visible solid fill. */
  function FirstSolid(fills: seq<Paint>): (r: Option<nat>)
    ensures r.Some? ==> r.value < |fills| && VisibleSolid(fills[r.value])
    ensures r.Some? ==> forall k :: 0 <= k < r.value ==> !VisibleSolid(fills[k])
    ensures r.None? ==> forall k :: 0 <= k < |fills| ==> !VisibleSolid(fills[k])
  {
    if fills == [] then None
    else if VisibleSolid(fills[0]) then Some(0)
    else match FirstSolid(fills[1..])
      case None => None
      case Some(i) => Some(i + 1)
  }

  /** Some stroke is not marked invisible. */
  predicate AnyVisibleStroke(strokes: seq<Paint>) {
    exists k :: 0 <= k < |strokes| && strokes[k].visible != Some(false)
  }

  /** The node has a background or an outline. */
  predicate HasVisuals(n: Node) {
    FirstSolid(n.fills).Some? || AnyVisibleStroke(n.strokes)
  }

  /** `int(c * 255)` on each channel. */
  function HexOf(c: Rgb): Hex {
    Hex(Trunc(c.r * 255.0), Trunc(c.g * 255.0), Trunc(c.b * 255.0))
  }

  /** The colour of the first visible solid fill, when that fill has one. */
  function ColorOf(n: Node): Option<Hex> {
    match FirstSolid(n.fills)
    case None => None
    case Some(i) => if n.fills[i].color.Some? then Some(HexOf(n.fills[i].color.value)) else None
  }

  /** The emission rule: text, buttons and icons always; containers only with visuals. */
  predicate ShouldAdd(n: Node) {
    KindOf(n) != Container || HasVisuals(n)
  }

  /** The component emitted for a node with a box, its position re-based on the offset. */
  function ComponentOf(n: Node, offsetX: real, offsetY: real): (c: Component)
    requires n.box.Some?
    ensures c.x == n.box.value.x - offsetX && c.y == n.box.value.y - offsetY
    ensures c.w == n.box.value.width && c.h == n.box.value.height
    ensures c.name == n.name && c.kind == KindOf(n)
    ensures n.nodeType == Some("TEXT") ==> c.textContent == (if n.characters.Some? then n.characters.value else "")
    ensures n.nodeType != Some("TEXT") ==> c.textContent == ""
    ensures c.color.Some? <==> FirstSolid(n.fills).Some? && n.fills[FirstSolid(n.fills).value].color.Some?
    ensures c.color.Some? ==> c.color.value == HexOf(n.fills[FirstSolid(n.fills).value].color.value)
  {
    var b := n.box.value;
    Component(n.name, KindOf(n), b.x - offsetX, b.y - offsetY, b.width, b.height, TextOf(n), ColorOf(n))
  }

  // ---------------------------------------------------------------------
  // The traversal
  // ---------------------------------------------------------------------

  /** The node's own contribution: its component, when it has a box and should be added. */
  function Own(n: Node, offsetX: real, offsetY: real): seq<Component> {
    if n.box.Some? && ShouldAdd(n) then [ComponentOf(n, offsetX, offsetY)] else []
  }

  /** What `_traverse_node` appends for `n`: nothing for a pruned subtree, else its own entry, then its children's. */
  function Flatten(n: Node, offsetX: real, offsetY: real): seq<Component>
    decreases n
  {
    if Pruned(n) then [] else Own(n, offsetX, offsetY) + FlattenAll(n.children, offsetX, offsetY)
  }

  /** What traversing the nodes in order appends. */
  function FlattenAll(ns: seq<Node>, offsetX: real, offsetY: real): seq<Component>
    decreases ns
  {
    if ns == [] then []
    else FlattenAll(ns[..|ns| - 1], offsetX, offsetY) + Flatten(ns[|ns| - 1], offsetX, offsetY)
  }

  /** The fill loop: whether some fill is a visible solid, and the colour of the first one. */
  method SolidFill(fills: seq<Paint>) returns (hasVisuals: bool, colorHex: Option<Hex>)
    ensures hasVisuals == FirstSolid(fills).Some?
    ensures colorHex == match FirstSolid(fills)
                        case None => None
                        case Some(i) => if fills[i].color.Some? then Some(HexOf(fills[i].color.value)) else None
  {
    colorHex := None;
    hasVisuals := false;
    for j := 0 to |fills|
      invariant forall k :: 0 <= k < j ==> !VisibleSolid(fills[k])
      invariant !hasVisuals && colorHex.None?
    {
      var fill := fills[j];
      if fill.paintType == Some("SOLID") && fill.visible != Some(false) {
        hasVisuals := true;
        if fill.color.Some? {
          colorHex := Some(HexOf(fill.color.value));
        }
        assert FirstSolid(fills) == Some(j);
        return;
      }
    }
  }

  /** The stroke loop: whether some stroke is not marked invisible. */
  method VisibleStroke(strokes: seq<Paint>) returns (hasVisuals: bool)
    ensures hasVisuals == AnyVisibleStroke(strokes)
  {
    for j := 0 to |strokes|
      invariant forall k :: 0 <= k < j ==> strokes[k].visible == Some(false)
    {
      if strokes[j].visible != Some(false) {
        return true;
      }
    }
    return false;
  }

  /**
   * The part of `_traverse_node` between the pruning tests and the recursion:
   * the node's type, visuals and component, appended when it should be added.
   */
  method AppendOwn(node: Node, components: seq<Component>, offsetX: real, offsetY: real)
    returns (out: seq<Component>)
    ensures out == components + Own(node, offsetX, offsetY)
  {
    out := components;
    var kind := KindOf(node);
    var textContent := TextOf(node);
    var hasFill, colorHex := SolidFill(node.fills);
    var hasStroke := VisibleStroke(node.strokes);
    var hasVisuals := hasFill || hasStroke;
    assert colorHex == ColorOf(node);

    if node.box.Some? {
      var b := node.box.value;
      var comp := Component(node.name, kind, b.x - offsetX, b.y - offsetY, b.width, b.height, textContent, colorHex);
      if kind == Text || kind == Button || kind == Icon || (node.nodeType == Some("RECTANGLE") && hasVisuals)
         || (kind == Container && hasVisuals) {
        out := out + [comp];
      }
    }
  }

  /**
   * `_traverse_node(node, components, offset_x, offset_y)`. The shared list is
   * threaded through: `out` is `components` with this subtree's entries
   * appended.
   */
  method TraverseNode(node: Node, components: seq<Component>, offsetX: real, offsetY: real)
    returns (out: seq<Component>)
    decreases node
    ensures out == components + Flatten(node, offsetX, offsetY)
  {
    out := components;
    if node.visible == Some(false) {
      assert Flatten(node, offsetX, offsetY) == [];
      return;
    }
    if IsSystemBar(node) {
      assert Flatten(node, offsetX, offsetY) == [];
      return;
    }
    ghost var own := Own(node, offsetX, offsetY);
    ghost var rest := FlattenAll(node.children, offsetX, offsetY);
    assert Flatten(node, offsetX, offsetY) == own + rest;
    out := AppendOwn(node, out, offsetX, offsetY);
    out := TraverseChildren(node.children, out, offsetX, offsetY);
    assert out == (components + own) + rest;
  }

  /** `for child in children: self._traverse_node(child, components, offset_x, offset_y)`. */
  method TraverseChildren(children: seq<Node>, components: seq<Component>, offsetX: real, offsetY: real)
    returns (out: seq<Component>)
    decreases children
    ensures out == components + FlattenAll(children, offsetX, offsetY)
  {
    out := components;
    for i := 0 to |children|
      invariant out == components + FlattenAll(children[..i], offsetX, offsetY)
    {
      FlattenAllSnoc(children, i, offsetX, offsetY);
      out := TraverseNode(children[i], out, offsetX, offsetY);
    }
    assert children[..|children|] == children;
  }

  lemma FlattenAllSnoc(ns: seq<Node>, i: nat, offsetX: real, offsetY: real)
    requires i < |ns|
    ensures FlattenAll(ns[..i + 1], offsetX, offsetY) == FlattenAll(ns[..i], offsetX, offsetY) + Flatten(ns[i], offsetX, offsetY)
  {
    assert ns[..i + 1][..i] == ns[..i];
  }

  /** The offset of a requested frame: its own box position, or the origin when it has none. */
  function OffsetOf(document: Node): (real, real) {
    if document.box.Some? then (document.box.value.x, document.box.value.y) else (0.0, 0.0)
  }

  /** What one requested frame contributes: its descendants only, re-based on the frame. */
  function EntryComponents(e: NodeEntry): seq<Component> {
    if e.document.None? then []
    else
      var (ox, oy) := OffsetOf(e.document.value);
      FlattenAll(e.document.value.children, ox, oy)
  }

  function EntriesComponents(es: seq<NodeEntry>): seq<Component> {
    if es == [] then [] else EntriesComponents(es[..|es| - 1]) + EntryComponents(es[|es| - 1])
  }

  /** `parse_figma_response(json_data)`; `None` stands for an empty or missing response. */
  method ParseFigmaResponse(json: Option<Response>) returns (components: seq<Component>)
    ensures json.None? || json.value.nodes.None? ==> components == []
    ensures json.Some? && json.value.nodes.Some? ==> components == EntriesComponents(json.value.nodes.value)
  {
    if json.None? || json.value.nodes.None? {
      return [];
    }
    var nodes := json.value.nodes.value;
    components := [];
    for i := 0 to |nodes|
      invariant components == EntriesComponents(nodes[..i])
    {
      assert nodes[..i + 1][..i] == nodes[..i];
      var document := nodes[i].document;
      if document.Some? {
        var offsetX, offsetY := 0.0, 0.0;
        if document.value.box.Some? {
          offsetX := document.value.box.value.x;
          offsetY := document.value.box.value.y;
        }
        components := TraverseChildren(document.value.children, components, offsetX, offsetY);
      }
    }
    assert nodes[..|nodes|] == nodes;
  }

  // ---------------------------------------------------------------------
  // A reference reading: prune, then select, then convert
  // ---------------------------------------------------------------------

  /** The nodes the traversal reaches, in pre-order: a pruned node hides its subtree. */
  function Reached(n: Node): seq<Node>
    decreases n
  {
    if Pruned(n) then [] else [n] + ReachedAll(n.children)
  }

  function ReachedAll(ns: seq<Node>): seq<Node>
    decreases ns
  {
    if ns == [] then [] else ReachedAll(ns[..|ns| - 1]) + Reached(ns[|ns| - 1])
  }

  /** The reached nodes that are emitted: those with a box that should be added. */
  function Selected(ns: seq<Node>): (r: seq<Node>)
    ensures forall i :: 0 <= i < |r| ==> r[i].box.Some? && ShouldAdd(r[i])
  {
    if ns == [] then []
    else Selected(ns[..|ns| - 1]) + (if ns[|ns| - 1].box.Some? && ShouldAdd(ns[|ns| - 1]) then [ns[|ns| - 1]] else [])
  }

  function Converted(ns: seq<Node>, offsetX: real, offsetY: real): (r: seq<Component>)
    requires forall i :: 0 <= i < |ns| ==> ns[i].box.Some?
    ensures |r| == |ns|
    ensures forall i :: 0 <= i < |ns| ==> r[i] == ComponentOf(ns[i], offsetX, offsetY)
  {
    seq(|ns|, i requires 0 <= i < |ns| => ComponentOf(ns[i], offsetX, offsetY))
  }

  lemma {:induction false} SelectedJoin(a: seq<Node>, b: seq<Node>)
    ensures Selected(a + b) == Selected(a) + Selected(b)
  {
    if b == [] {
      assert a + b == a;
    } else {
      SelectedJoin(a, b[..|b| - 1]);
      assert (a + b)[..|a + b| - 1] == a + b[..|b| - 1];
      assert (a + b)[|a + b| - 1] == b[|b| - 1];
    }
  }

  lemma ConvertedJoin(a: seq<Node>, b: seq<Node>, offsetX: real, offsetY: real)
    requires forall i :: 0 <= i < |a| ==> a[i].box.Some?
    requires forall i :: 0 <= i < |b| ==> b[i].box.Some?
    ensures forall i :: 0 <= i < |a + b| ==> (a + b)[i].box.Some?
    ensures Converted(a + b, offsetX, offsetY) == Converted(a, offsetX, offsetY) + Converted(b, offsetX, offsetY)
  {
    assert forall i :: |a| <= i < |a + b| ==> (a + b)[i] == b[i - |a|];
  }

  /** The traversal is the pre-order of unpruned nodes, filtered by the emission rule, each converted. */
  lemma {:induction false} FlattenIsSelection(n: Node, offsetX: real, offsetY: real)
    decreases n
    ensures Flatten(n, offsetX, offsetY) == Converted(Selected(Reached(n)), offsetX, offsetY)
  {
    if !Pruned(n) {
      var rest := ReachedAll(n.children);
      assert Reached(n) == [n] + rest;
      assert Flatten(n, offsetX, offsetY) == Own(n, offsetX, offsetY) + FlattenAll(n.children, offsetX, offsetY);
      FlattenAllIsSelection(n.children, offsetX, offsetY);
      OwnIsSelection(n, offsetX, offsetY);
      SelectedJoin([n], rest);
      ConvertedJoin(Selected([n]), Selected(rest), offsetX, offsetY);
    }
  }

  lemma OwnIsSelection(n: Node, offsetX: real, offsetY: real)
    ensures Own(n, offsetX, offsetY) == Converted(Selected([n]), offsetX, offsetY)
  {
    assert [n][..0] == [];
    assert Selected([n]) == (if n.box.Some? && ShouldAdd(n) then [n] else []);
  }

  lemma {:induction false} FlattenAllIsSelection(ns: seq<Node>, offsetX: real, offsetY: real)
    decreases ns
    ensures FlattenAll(ns, offsetX, offsetY) == Converted(Selected(ReachedAll(ns)), offsetX, offsetY)
  {
    if ns != [] {
      var init := ns[..|ns| - 1];
      var last := ns[|ns| - 1];
      FlattenAllIsSelection(init, offsetX, offsetY);
      FlattenIsSelection(last, offsetX, offsetY);
      SelectedJoin(ReachedAll(init), Reached(last));
      ConvertedJoin(Selected(ReachedAll(init)), Selected(Reached(last)), offsetX, offsetY);
    }
  }

  /** A requested frame yields exactly the emitted nodes among its reached descendants, re-based on the frame. */
  lemma EntryIsSelection(e: NodeEntry)
    requires e.document.Some?
    ensures var (ox, oy) := OffsetOf(e.document.value);
            EntryComponents(e) == Converted(Selected(ReachedAll(e.document.value.children)), ox, oy)
  {
    var (ox, oy) := OffsetOf(e.document.value);
    FlattenAllIsSelection(e.document.value.children, ox, oy);
  }

  /** The components moved by `(dx, dy)`. */
  function Moved(cs: seq<Component>, dx: real, dy: real): (r: seq<Component>)
    ensures |r| == |cs|
    ensures forall i :: 0 <= i < |cs| ==> r[i] == cs[i].(x := cs[i].x + dx, y := cs[i].y + dy)
  {
    seq(|cs|, i requires 0 <= i < |cs| => cs[i].(x := cs[i].x + dx, y := cs[i].y + dy))
  }

  /**
   * Changing the offset only translates the output: the same components, in
   * the same order, moved by the difference of the offsets.
   */
  lemma RebaseTranslates(ns: seq<Node>, ox: real, oy: real, ox2: real, oy2: real)
    ensures FlattenAll(ns, ox2, oy2) == Moved(FlattenAll(ns, ox, oy), ox - ox2, oy - oy2)
  {
    FlattenAllIsSelection(ns, ox, oy);
    FlattenAllIsSelection(ns, ox2, oy2);
    ConvertedMoved(Selected(ReachedAll(ns)), ox, oy, ox2, oy2);
  }

  lemma ConvertedMoved(ns: seq<Node>, ox: real, oy: real, ox2: real, oy2: real)
    requires forall i :: 0 <= i < |ns| ==> ns[i].box.Some?
    ensures Converted(ns, ox2, oy2) == Moved(Converted(ns, ox, oy), ox - ox2, oy - oy2)
  {
    var a, b := Converted(ns, ox2, oy2), Moved(Converted(ns, ox, oy), ox - ox2, oy - oy2);
    forall i | 0 <= i < |ns|
      ensures a[i] == b[i]
    {
      var c := ComponentOf(ns[i], ox, oy);
      assert b[i] == c.(x := c.x + (ox - ox2), y := c.y + (oy - oy2));
    }
  }

  /** The number of nodes in a tree. */
  function Size(n: Node): (s: nat)
    decreases n
    ensures s >= 1
  {
    1 + SizeAll(n.children)
  }

  function SizeAll(ns: seq<Node>): nat
    decreases ns
  {
    if ns == [] then 0 else SizeAll(ns[..|ns| - 1]) + Size(ns[|ns| - 1])
  }

  /** The traversal emits at most one component per node. */
  lemma {:induction false} FlattenBounded(n: Node, offsetX: real, offsetY: real)
    decreases n
    ensures |Flatten(n, offsetX, offsetY)| <= Size(n)
  {
    FlattenAllBounded(n.children, offsetX, offsetY);
  }

  lemma {:induction false} FlattenAllBounded(ns: seq<Node>, offsetX: real, offsetY: real)
    decreases ns
    ensures |FlattenAll(ns, offsetX, offsetY)| <= SizeAll(ns)
  {
    if ns != [] {
      FlattenAllBounded(ns[..|ns| - 1], offsetX, offsetY);
      FlattenBounded(ns[|ns| - 1], offsetX, offsetY);
    }
  }
}
