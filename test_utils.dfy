/**
 * `printTree` of src/shared/test-utils.js: prints a directory tree (as the
 * `dree` package describes it) one name per line, indented two spaces per
 * level, leaving out hidden entries together with everything below them.
 */
module TestUtils {

  /** One entry of the tree; only `"directory"` entries print their children. */
  datatype Node = Node(name: string, kind: string, children: seq<Node>)

  /** `node.name[0] === '.'`; an empty name has no first character and is kept. */
  predicate Hidden(node: Node) {
    |node.name| > 0 && node.name[0] == '.'
  }

  predicate IsDir(node: Node) {
    node.kind == "directory"
  }

  /** `'  '.repeat(level)`. */
  function Indent(level: nat): (r: string)
    ensures |r| == 2 * level
    ensures forall i :: 0 <= i < |r| ==> r[i] == ' '
  {
    if level == 0 then "" else "  " + Indent(level - 1)
  }

  /** `printTree(nodes, indentLevel)`: the kept nodes' lines, each directory followed by its children one level deeper. */
  function PrintTree(nodes: seq<Node>, level: nat): string
    decreases nodes
  {
    if |nodes| == 0 then ""
    else (if Hidden(nodes[0]) then "" else PrintNode(nodes[0], level)) + PrintTree(nodes[1..], level)
  }

  /** The text one kept node contributes. */
  function PrintNode(node: Node, level: nat): string
    decreases node
  {
    Indent(level) + node.name + "\n" + (if IsDir(node) then PrintTree(node.children, level + 1) else "")
  }

  // ---------------------------------------------------------------------------
  // An independent description: the list of printed lines

  /** One printed line: its depth and the name on it. */
  datatype Line = Line(level: nat, name: string)

  /** The kept nodes in pre-order with their depth. */
  function Lines(nodes: seq<Node>, level: nat): seq<Line>
    decreases nodes
  {
    if |nodes| == 0 then []
    else
      var n := nodes[0];
      (if Hidden(n) then [] else [Line(level, n.name)] + (if IsDir(n) then Lines(n.children, level + 1) else []))
      + Lines(nodes[1..], level)
  }

  /** Each line as `2·level` spaces, the name and a newline, one after another. */
  function Render(lines: seq<Line>): string {
    if |lines| == 0 then "" else Indent(lines[0].level) + lines[0].name + "\n" + Render(lines[1..])
  }

  lemma {:induction false} RenderConcat(a: seq<Line>, b: seq<Line>)
    ensures Render(a + b) == Render(a) + Render(b)
  {
    if |a| > 0 {
      RenderConcat(a[1..], b);
      assert (a + b)[1..] == a[1..] + b;
    } else {
      assert a + b == b;
    }
  }

  /** The printed text is exactly the rendering of the kept lines in pre-order. */
  lemma {:induction false} PrintTreeRendersLines(nodes: seq<Node>, level: nat)
    ensures PrintTree(nodes, level) == Render(Lines(nodes, level))
    decreases nodes
  {
    if |nodes| > 0 {
      var n := nodes[0];
      PrintTreeRendersLines(nodes[1..], level);
      if !Hidden(n) {
        var sub := if IsDir(n) then Lines(n.children, level + 1) else [];
        if IsDir(n) {
          PrintTreeRendersLines(n.children, level + 1);
        }
        RenderConcat([Line(level, n.name)], sub);
        RenderConcat([Line(level, n.name)] + sub, Lines(nodes[1..], level));
        assert Render([Line(level, n.name)]) == Indent(level) + n.name + "\n";
      } else {
        assert Lines(nodes, level) == Lines(nodes[1..], level);
      }
    }
  }

  /** Every printed line is at least as deep as the level printing started at, and no printed name is hidden. */
  lemma {:induction false} LinesVisible(nodes: seq<Node>, level: nat)
    ensures forall l :: l in Lines(nodes, level) ==> l.level >= level && !(|l.name| > 0 && l.name[0] == '.')
    decreases nodes
  {
    if |nodes| > 0 {
      LinesVisible(nodes[1..], level);
      if IsDir(nodes[0]) {
        LinesVisible(nodes[0].children, level + 1);
      }
    }
  }

  /** Lists are printed one after another. */
  lemma {:induction false} PrintTreeConcat(a: seq<Node>, b: seq<Node>, level: nat)
    ensures PrintTree(a + b, level) == PrintTree(a, level) + PrintTree(b, level)
  {
    if |a| > 0 {
      PrintTreeConcat(a[1..], b, level);
      assert (a + b)[1..] == a[1..] + b;
      assert (a + b)[0] == a[0];
    } else {
      assert a + b == b;
    }
  }

  /** A hidden node is left out together with its whole subtree. */
  lemma HiddenOmitted(a: seq<Node>, hidden: Node, b: seq<Node>, level: nat)
    requires Hidden(hidden)
    ensures PrintTree(a + [hidden] + b, level) == PrintTree(a + b, level)
  {
    var hb := [hidden] + b;
    assert PrintTree(hb, level) == PrintTree(b, level) by {
      assert hb[0] == hidden;
      assert hb[1..] == b;
    }
    assert a + [hidden] + b == a + hb;
    PrintTreeConcat(a, hb, level);
    PrintTreeConcat(a, b, level);
  }

  /** A file prints exactly its own line; a directory's children follow it one level deeper. */
  lemma PrintOneNode(node: Node, level: nat)
    requires !Hidden(node)
    ensures PrintTree([node], level) == Indent(level) + node.name + "\n" + (if IsDir(node) then PrintTree(node.children, level + 1) else "")
  {
    assert [node][1..] == [];
  }
}
