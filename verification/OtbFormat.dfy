/**
 The OTB tree format (src/fileloader.h): marker bytes, the tree a file stands for, the
 nodes the loader builds (byte ranges into the mapped file), and the escape rule.
 */
module OtbFormat {
  import opened Basics

  const ESCAPE: Byte := 0xFD
  const START: Byte := 0xFE
  const END: Byte := 0xFF
  const WILDCARD: seq<Byte> := [0, 0, 0, 0]
  const IDENTIFIER_SIZE := 4
  const MINIMAL_SIZE := 7

  /** What a file means. */
  datatype Tree = Tree(kind: Byte, props: seq<Byte>, children: seq<Tree>)

  /** What the loader stores: property bytes stay in the file, between two positions. */
  datatype Node = Node(kind: Byte, propsBegin: nat, propsEnd: Option<nat>, children: seq<Node>)

  /** The byte-by-byte reading of a property range; a trailing lone escape keeps nothing. */
  function Unescape(s: seq<Byte>): (r: seq<Byte>)
    ensures |r| <= |s|
  {
    if s == [] then []
    else if s[0] == ESCAPE then
      if |s| == 1 then [] else [s[1]] + Unescape(s[2..])
    else [s[0]] + Unescape(s[1..])
  }

  /** A file's property ranges decoded, node by node. */
  ghost function Content(bytes: seq<Byte>, node: Node): (t: Tree)
    requires InFile(bytes, node)
  {
    Tree(node.kind, Unescape(bytes[node.propsBegin..node.propsEnd.value]),
         seq(|node.children|, i requires 0 <= i < |node.children| => Content(bytes, node.children[i])))
  }

  /** Every node's range is closed and lies inside the file. */
  ghost predicate InFile(bytes: seq<Byte>, node: Node) {
    && node.propsEnd.Some?
    && node.propsBegin <= node.propsEnd.value <= |bytes|
    && forall i :: 0 <= i < |node.children| ==> InFile(bytes, node.children[i])
  }

  // ---- The writer the escape rule implies ----

  function Escape(s: seq<Byte>): (r: seq<Byte>) {
    if s == [] then []
    else if s[0] >= ESCAPE then [ESCAPE, s[0]] + Escape(s[1..])
    else [s[0]] + Escape(s[1..])
  }

  function Print(t: Tree): (r: seq<Byte>)
    decreases t, 1
  {
    [START, t.kind] + Escape(t.props) + PrintAll(t.children) + [END]
  }

  function PrintAll(ts: seq<Tree>): (r: seq<Byte>)
    decreases ts, 0
  {
    if ts == [] then [] else Print(ts[0]) + PrintAll(ts[1..])
  }
}
