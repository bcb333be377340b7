/**
 The stack parser of src/fileloader.cpp.

 `Scan` is the reference reading: a recursive function over a zipper of open nodes.
 `Cursor` is the loader's own state: one tree under construction and a stack of pointers
 into it (a pointer is the list of child positions leading to a node). The parser method
 in `OtbLoader` runs on cursors; `Represents` ties the two together.
 */
module OtbParser {
  import opened Basics
  import opened OtbFormat

  // ---- Reference reading ----

  /** Open nodes, outermost first, or the finished root. */
  datatype Zipper = Open(frames: seq<Node>) | Closed(root: Node)

  /** A node's property range ends where its first child starts or, without children, at its END. */
  function EndProps(n: Node, at: nat): (r: Node) {
    if n.children == [] then n.(propsEnd := Some(at)) else n
  }

  function Last<T>(s: seq<T>): (r: T)
    requires s != []
  {
    s[|s| - 1]
  }

  function Front<T>(s: seq<T>): (r: seq<T>)
    requires s != []
    ensures |r| == |s| - 1
  {
    s[..|s| - 1]
  }

  function NewNode(kind: Byte, begin: nat): (r: Node) {
    Node(kind, begin, None, [])
  }

  function OpenChild(frames: seq<Node>, at: nat, kind: Byte): (r: seq<Node>)
    requires frames != []
  {
    Front(frames) + [EndProps(Last(frames), at), NewNode(kind, at + 2)]
  }

  function AddChild(n: Node, child: Node): (r: Node) {
    n.(children := n.children + [child])
  }

  function CloseTop(frames: seq<Node>, at: nat): (r: Zipper)
    requires frames != []
  {
    var node := EndProps(Last(frames), at);
    if |frames| == 1 then Closed(node)
    else Open(Front(Front(frames)) + [AddChild(Last(Front(frames)), node)])
  }

  /** Reads the bytes from position `it` on; None is InvalidOTBFormat. */
  function Scan(bytes: seq<Byte>, it: nat, z: Zipper): (r: Option<Node>)
    requires it <= |bytes|
    requires z.Open? ==> z.frames != []
    decreases |bytes| - it
  {
    if it == |bytes| then
      if z.Closed? then Some(z.root) else None
    else if bytes[it] == START then
      if z.Closed? || it + 1 == |bytes| then None
      else Scan(bytes, it + 2, Open(OpenChild(z.frames, it, bytes[it + 1])))
    else if bytes[it] == END then
      if z.Closed? then None else Scan(bytes, it + 1, CloseTop(z.frames, it))
    else if bytes[it] == ESCAPE then
      if it + 1 == |bytes| then None else Scan(bytes, it + 2, z)
    else Scan(bytes, it + 1, z)
  }

  /** `Loader::Loader` followed by `parseTree`. */
  function Parse(accepted: seq<Byte>, bytes: seq<Byte>): (r: Option<Node>)
  {
    if |bytes| <= MINIMAL_SIZE then None
    else if bytes[..IDENTIFIER_SIZE] != accepted && bytes[..IDENTIFIER_SIZE] != WILDCARD then None
    else if bytes[IDENTIFIER_SIZE] != START then None
    else Scan(bytes, IDENTIFIER_SIZE + 2, Open([NewNode(bytes[IDENTIFIER_SIZE + 1], IDENTIFIER_SIZE + 2)]))
  }

  /**
   Only files of more than seven bytes with the accepted identifier, or four zeros, and a start marker are
   read at all; what follows decides.
   */
  lemma ParseIff(accepted: seq<Byte>, bytes: seq<Byte>)
    ensures Parse(accepted, bytes).Some? <==>
            && |bytes| > 7 && (bytes[..4] == accepted || bytes[..4] == [0, 0, 0, 0]) && bytes[4] == 0xFE
            && Scan(bytes, 6, Open([Node(bytes[5], 6, None, [])])).Some?
  {
  }

  /**
   From position `it` on, with `depth` nodes open, every node that is opened is closed, none is opened or
   closed outside the root, and no marker or escape is the last byte where a byte has to follow.
   */
  predicate Balanced(bytes: seq<Byte>, it: nat, depth: nat)
    requires it <= |bytes|
    decreases |bytes| - it
  {
    if it == |bytes| then depth == 0
    else if bytes[it] == 0xFE then depth > 0 && it + 1 < |bytes| && Balanced(bytes, it + 2, depth + 1)
    else if bytes[it] == 0xFF then depth > 0 && Balanced(bytes, it + 1, depth - 1)
    else if bytes[it] == 0xFD then it + 1 < |bytes| && Balanced(bytes, it + 2, depth)
    else Balanced(bytes, it + 1, depth)
  }

  function Depth(z: Zipper): (n: nat) { if z.Closed? then 0 else |z.frames| }

  lemma {:induction false} ScanIff(bytes: seq<Byte>, it: nat, z: Zipper)
    requires it <= |bytes| && (z.Open? ==> z.frames != [])
    ensures Scan(bytes, it, z).Some? <==> Balanced(bytes, it, Depth(z))
    decreases |bytes| - it
  {
    if it < |bytes| {
      if bytes[it] == START {
        if z.Open? && it + 1 < |bytes| {
          ScanIff(bytes, it + 2, Open(OpenChild(z.frames, it, bytes[it + 1])));
        }
      } else if bytes[it] == END {
        if z.Open? {
          ScanIff(bytes, it + 1, CloseTop(z.frames, it));
        }
      } else if bytes[it] == ESCAPE {
        if it + 1 < |bytes| {
          ScanIff(bytes, it + 2, z);
        }
      } else {
        ScanIff(bytes, it + 1, z);
      }
    }
  }

  /** Main result on rejection: a file loads if and only if its header is right and its markers are balanced. */
  lemma LoadsIff(accepted: seq<Byte>, bytes: seq<Byte>)
    ensures Parse(accepted, bytes).Some? <==>
            && |bytes| > 7 && (bytes[..4] == accepted || bytes[..4] == [0, 0, 0, 0]) && bytes[4] == 0xFE
            && Balanced(bytes, 6, 1)
  {
    ParseIff(accepted, bytes);
    if |bytes| > 7 {
      ScanIff(bytes, 6, Open([Node(bytes[5], 6, None, [])]));
    }
  }

  // ---- The loader's cursor: a tree and a stack of pointers into it ----

  type Pointer = seq<nat>

  datatype Cursor = Cursor(root: Node, stack: seq<Pointer>)

  predicate Points(n: Node, p: Pointer) {
    p == [] || (p[0] < |n.children| && Points(n.children[p[0]], p[1..]))
  }

  function Deref(n: Node, p: Pointer): (r: Node)
    requires Points(n, p)
  {
    if p == [] then n else Deref(n.children[p[0]], p[1..])
  }

  /** The tree after a write through a pointer. */
  function Assign(n: Node, p: Pointer, value: Node): (r: Node)
    requires Points(n, p)
  {
    if p == [] then value
    else n.(children := n.children[p[0] := Assign(n.children[p[0]], p[1..], value)])
  }

  /** The stack starts at the root and every entry is the last child of the one below it. */
  ghost predicate Spine(c: Cursor) {
    && (c.stack != [] ==> c.stack[0] == [])
    && (forall k :: 0 <= k < |c.stack| ==> Points(c.root, c.stack[k]))
    && forall k :: 0 <= k < |c.stack| - 1 ==> LastChild(c.root, c.stack[k], c.stack[k + 1])
  }

  /** q points to the last child of the node p points to. */
  ghost predicate LastChild(root: Node, p: Pointer, q: Pointer) {
    Points(root, p) && Deref(root, p).children != [] && q == p + [|Deref(root, p).children| - 1]
  }

  function OnStart(c: Cursor, at: nat, kind: Byte): (r: Cursor)
    requires c.stack != [] && Points(c.root, Last(c.stack))
  {
    var top := Last(c.stack);
    var current := EndProps(Deref(c.root, top), at);
    Cursor(Assign(c.root, top, AddChild(current, NewNode(kind, at + 2))),
           c.stack + [top + [|current.children|]])
  }

  function OnEnd(c: Cursor, at: nat): (r: Cursor)
    requires c.stack != [] && Points(c.root, Last(c.stack))
  {
    var top := Last(c.stack);
    Cursor(Assign(c.root, top, EndProps(Deref(c.root, top), at)), Front(c.stack))
  }

  // ---- The cursor represents the zipper ----

  /** The open nodes folded into one tree, each holding the next as its last child. */
  ghost function Fold(frames: seq<Node>): (r: Node)
    requires frames != []
  {
    if |frames| == 1 then frames[0] else AddChild(frames[0], Fold(frames[1..]))
  }

  /** The pointer to the innermost of the open nodes. */
  ghost function Tip(frames: seq<Node>): (r: Pointer)
    requires frames != []
  {
    if |frames| == 1 then [] else [|frames[0].children|] + Tip(frames[1..])
  }

  ghost predicate Represents(c: Cursor, z: Zipper) {
    match z
    case Closed(root) => c.root == root && c.stack == []
    case Open(frames) =>
      && frames != [] && c.root == Fold(frames) && |c.stack| == |frames|
      && forall k :: 0 <= k < |c.stack| ==> c.stack[k] == Tip(frames[..k + 1])
  }

  lemma {:induction false} FoldTip(frames: seq<Node>, value: Node)
    requires frames != []
    ensures Points(Fold(frames), Tip(frames))
    ensures Deref(Fold(frames), Tip(frames)) == Last(frames)
    ensures Assign(Fold(frames), Tip(frames), value) == Fold(Front(frames) + [value])
  {
    if |frames| == 1 {
      assert Front(frames) + [value] == [value];
    } else {
      var rest := frames[1..];
      FoldTip(rest, value);
      assert Tip(frames)[1..] == Tip(rest);
      assert (Front(frames) + [value])[1..] == Front(rest) + [value];
      var n := |frames[0].children|;
      assert (frames[0].children + [Fold(rest)])[n := Fold(Front(rest) + [value])]
          == frames[0].children + [Fold(Front(rest) + [value])];
    }
  }

  /** Opening a node below the tip is the same as appending a child there. */
  lemma {:induction false} FoldExtend(frames: seq<Node>, child: Node)
    requires frames != []
    ensures Fold(frames + [child]) == Fold(Front(frames) + [AddChild(Last(frames), child)])
    ensures Tip(frames + [child]) == Tip(frames) + [|Last(frames).children|]
  {
    if |frames| == 1 {
      assert (frames + [child])[1..] == [child];
      assert Front(frames) + [AddChild(Last(frames), child)] == [AddChild(Last(frames), child)];
    } else {
      FoldExtend(frames[1..], child);
      assert (frames + [child])[1..] == frames[1..] + [child];
      assert (Front(frames) + [AddChild(Last(frames), child)])[1..]
          == Front(frames[1..]) + [AddChild(Last(frames[1..]), child)];
    }
  }

  /** The tip only depends on how many children the frames above the innermost have. */
  lemma {:induction false} TipDepends(f: seq<Node>, g: seq<Node>)
    requires |f| == |g| > 0
    requires forall k :: 0 <= k < |f| - 1 ==> |f[k].children| == |g[k].children|
    ensures Tip(f) == Tip(g)
  {
    if |f| > 1 {
      assert forall k :: 0 <= k < |f| - 2 ==> f[1..][k] == f[k + 1] && g[1..][k] == g[k + 1];
      TipDepends(f[1..], g[1..]);
    }
  }

  lemma StartSimulates(c: Cursor, z: Zipper, at: nat, kind: Byte)
    requires z.Open? && Represents(c, z)
    ensures Points(c.root, Last(c.stack))
    ensures Represents(OnStart(c, at, kind), Open(OpenChild(z.frames, at, kind)))
  {
    var frames := z.frames;
    assert frames[..|frames|] == frames;
    var current := EndProps(Last(frames), at);
    var child := NewNode(kind, at + 2);
    var mid := Front(frames) + [current];
    FoldTip(frames, AddChild(current, child));
    FoldExtend(mid, child);
    assert Front(mid) == Front(frames);
    var frames' := OpenChild(frames, at, kind);
    assert frames' == mid + [child];
    TipDepends(frames, mid);
    var c' := OnStart(c, at, kind);
    forall k | 0 <= k < |c'.stack| ensures c'.stack[k] == Tip(frames'[..k + 1]) {
      if k < |frames| {
        TipDepends(frames[..k + 1], frames'[..k + 1]);
      } else {
        assert frames'[..k + 1] == frames';
      }
    }
  }

  lemma EndSimulates(c: Cursor, z: Zipper, at: nat)
    requires z.Open? && Represents(c, z)
    ensures Points(c.root, Last(c.stack))
    ensures Represents(OnEnd(c, at), CloseTop(z.frames, at))
  {
    var frames := z.frames;
    assert frames[..|frames|] == frames;
    var node := EndProps(Last(frames), at);
    FoldTip(frames, node);
    var c' := OnEnd(c, at);
    if |frames| == 1 {
      assert Front(frames) + [node] == [node];
    } else {
      var outer := Front(frames);
      FoldExtend(outer, node);
      var frames' := CloseTop(frames, at).frames;
      forall k | 0 <= k < |c'.stack| ensures c'.stack[k] == Tip(frames'[..k + 1]) {
        TipDepends(frames[..k + 1], frames'[..k + 1]);
      }
    }
  }

  /** Whatever a cursor represents, its stack is a spine of last children. */
  lemma {:induction false} RepresentsSpine(c: Cursor, z: Zipper)
    requires Represents(c, z)
    ensures Spine(c)
  {
    if z.Open? {
      var frames := z.frames;
      forall k | 0 <= k < |c.stack|
        ensures Points(c.root, c.stack[k])
        ensures k + 1 < |c.stack| ==> LastChild(c.root, c.stack[k], c.stack[k + 1])
      {
        SpineEntry(frames, k);
        if k + 1 < |c.stack| {
          FoldExtend(frames[..k + 1], frames[k + 1]);
          assert frames[..k + 1] + [frames[k + 1]] == frames[..k + 2];
        }
      }
    }
  }

  lemma {:induction false} SpineEntry(frames: seq<Node>, k: nat)
    requires k < |frames|
    ensures Points(Fold(frames), Tip(frames[..k + 1]))
    ensures Deref(Fold(frames), Tip(frames[..k + 1])) == Fold(frames[k..])
  {
    if k == 0 {
      assert frames[0..] == frames;
    } else {
      SpineEntry(frames[1..], k - 1);
      assert frames[1..][..k] == frames[..k + 1][1..];
      assert frames[1..][k - 1..] == frames[k..];
      assert Tip(frames[..k + 1])[1..] == Tip(frames[1..][..k]);
    }
  }

  lemma {:induction false} SpineDepth(c: Cursor, k: nat)
    requires Spine(c) && k < |c.stack|
    ensures |c.stack[k]| == k
  {
    if k > 0 {
      SpineDepth(c, k - 1);
      assert LastChild(c.root, c.stack[k - 1], c.stack[k - 1 + 1]);
    }
  }

  /** Appending a child may move the siblings stored before it in the same vector. */
  ghost predicate MayMove(root: Node, appendedTo: Pointer, p: Pointer) {
    && Points(root, appendedTo)
    && |p| == |appendedTo| + 1
    && p[..|appendedTo|] == appendedTo
    && p[|appendedTo|] < |Deref(root, appendedTo).children|
  }

  /** No pointer on the stack is among the nodes an append at the top may move. */
  lemma AppendMovesNoOpenNode(c: Cursor, k: nat)
    requires Spine(c) && k < |c.stack|
    ensures !MayMove(c.root, Last(c.stack), c.stack[k])
  {
    SpineDepth(c, k);
    SpineDepth(c, |c.stack| - 1);
  }
}
