/** Printing a tree and loading it back gives the tree (src/fileloader.cpp). */
module OtbRoundTrip {
  import opened Basics
  import opened OtbFormat
  import opened OtbParser

  /** `part` sits in `bytes` at position `at`. */
  ghost predicate Sits(bytes: seq<Byte>, at: nat, part: seq<Byte>) {
    at + |part| <= |bytes| && bytes[at..at + |part|] == part
  }

  lemma SitsSplit(bytes: seq<Byte>, at: nat, a: seq<Byte>, b: seq<Byte>)
    requires Sits(bytes, at, a + b)
    ensures Sits(bytes, at, a) && Sits(bytes, at + |a|, b)
  {
    assert bytes[at..at + |a|] == bytes[at..at + |a + b|][..|a|];
    assert bytes[at + |a|..at + |a| + |b|] == bytes[at..at + |a + b|][|a|..];
  }

  lemma {:induction false} UnescapeEscape(p: seq<Byte>)
    ensures Unescape(Escape(p)) == p
  {
    if p != [] {
      UnescapeEscape(p[1..]);
      if p[0] >= ESCAPE {
        assert Escape(p)[2..] == Escape(p[1..]);
      } else {
        assert Escape(p)[1..] == Escape(p[1..]);
      }
    }
  }

  /** Escaped property bytes move the scanner forward and nothing else. */
  lemma {:induction false} ScanProps(bytes: seq<Byte>, it: nat, z: Zipper, p: seq<Byte>)
    requires Sits(bytes, it, Escape(p))
    requires z.Open? ==> z.frames != []
    ensures Scan(bytes, it, z) == Scan(bytes, it + |Escape(p)|, z)
    decreases p
  {
    if p != [] {
      var first := if p[0] >= ESCAPE then [ESCAPE, p[0]] else [p[0]];
      assert Escape(p) == first + Escape(p[1..]);
      SitsSplit(bytes, it, first, Escape(p[1..]));
      assert bytes[it] == bytes[it..it + |first|][0];
      ScanProps(bytes, it + |first|, z, p[1..]);
    }
  }

  /** Where the loader finds the parts of a tree printed at position `at`. */
  ghost function Layout(t: Tree, at: nat): (n: Node)
    decreases t, 1
  {
    var props := at + 2 + |Escape(t.props)|;
    Node(t.kind, at + 2, Some(props), LayoutAll(t.children, props))
  }

  ghost function LayoutAll(ts: seq<Tree>, at: nat): (ns: seq<Node>)
    ensures |ns| == |ts|
    decreases ts, 0
  {
    if ts == [] then [] else [Layout(ts[0], at)] + LayoutAll(ts[1..], at + |Print(ts[0])|)
  }

  /** The innermost open node after the children `ts` were read from position `at` on. */
  ghost function WithChildren(n: Node, ts: seq<Tree>, at: nat): (r: Node) {
    if ts == [] then n else EndProps(n, at).(children := n.children + LayoutAll(ts, at))
  }

  ghost function SetTop(frames: seq<Node>, top: Node): (r: seq<Node>)
    requires frames != []
  {
    Front(frames) + [top]
  }

  lemma PrintSits(bytes: seq<Byte>, at: nat, t: Tree)
    requires Sits(bytes, at, Print(t))
    ensures at + 2 <= |bytes| && bytes[at] == START && bytes[at + 1] == t.kind
    ensures Sits(bytes, at + 2, Escape(t.props))
    ensures Sits(bytes, at + 2 + |Escape(t.props)|, PrintAll(t.children))
    ensures at + |Print(t)| - 1 == at + 2 + |Escape(t.props)| + |PrintAll(t.children)| < |bytes|
    ensures bytes[at + |Print(t)| - 1] == END
  {
    PartsSit(bytes, at, t.kind, Escape(t.props), PrintAll(t.children));
  }

  lemma PartsSit(bytes: seq<Byte>, at: nat, kind: Byte, e: seq<Byte>, c: seq<Byte>)
    requires Sits(bytes, at, [START, kind] + e + c + [END])
    ensures at + 2 <= |bytes| && bytes[at] == START && bytes[at + 1] == kind
    ensures Sits(bytes, at + 2, e) && Sits(bytes, at + 2 + |e|, c)
    ensures at + 2 + |e| + |c| < |bytes| && bytes[at + 2 + |e| + |c|] == END
  {
    SitsSplit(bytes, at, [START, kind] + e + c, [END]);
    SitsSplit(bytes, at, [START, kind] + e, c);
    SitsSplit(bytes, at, [START, kind], e);
    assert bytes[at] == bytes[at..at + 2][0];
    assert bytes[at + 1] == bytes[at..at + 2][1];
    var last := at + 2 + |e| + |c|;
    assert bytes[last] == bytes[last..last + 1][0];
  }

  /** One node: START and type byte, then whatever leaves `body` on top, then END. */
  lemma ScanNode(bytes: seq<Byte>, it: nat, frames: seq<Node>, inner: seq<Node>, body: Node, end: nat)
    requires frames != [] && it + 2 <= end < |bytes|
    requires bytes[it] == START && bytes[end] == END
    requires inner == OpenChild(frames, it, bytes[it + 1])
    requires Scan(bytes, it + 2, Open(inner)) == Scan(bytes, end, Open(SetTop(inner, body)))
    ensures Scan(bytes, it, Open(frames))
         == Scan(bytes, end + 1, Open(SetTop(frames, AddChild(EndProps(Last(frames), it), EndProps(body, end)))))
  {
    var top := SetTop(inner, body);
    assert Front(Front(top)) == Front(frames) && Last(Front(top)) == EndProps(Last(frames), it);
  }

  /** Reading one printed tree adds its layout as a child of the innermost open node. */
  lemma {:induction false} ScanTree(bytes: seq<Byte>, it: nat, frames: seq<Node>, t: Tree, after: nat)
    requires frames != [] && Sits(bytes, it, Print(t)) && after == it + |Print(t)|
    ensures Scan(bytes, it, Open(frames))
         == Scan(bytes, after, Open(SetTop(frames, AddChild(EndProps(Last(frames), it), Layout(t, it)))))
    decreases t, 1
  {
    PrintSits(bytes, it, t);
    var inner := OpenChild(frames, it, t.kind);
    var body := Body(t, it);
    ScanBody(bytes, it, inner, t, body, after - 1);
    LayoutIsBody(t, it);
    ScanNode(bytes, it, frames, inner, body, after - 1);
  }

  /** The node of a tree printed at `at`, just before its END byte. */
  ghost function Body(t: Tree, at: nat): (r: Node) {
    WithChildren(NewNode(t.kind, at + 2), t.children, at + 2 + |Escape(t.props)|)
  }

  lemma LayoutIsBody(t: Tree, at: nat)
    ensures EndProps(Body(t, at), at + |Print(t)| - 1) == Layout(t, at)
  {
  }

  /** Properties and children of the node just opened at `at`, up to its END byte. */
  lemma {:induction false} ScanBody(bytes: seq<Byte>, at: nat, frames: seq<Node>, t: Tree, body: Node, end: nat)
    requires frames != [] && Last(frames) == NewNode(t.kind, at + 2) && body == Body(t, at)
    requires Sits(bytes, at + 2, Escape(t.props)) && Sits(bytes, at + 2 + |Escape(t.props)|, PrintAll(t.children))
    requires end == at + 2 + |Escape(t.props)| + |PrintAll(t.children)|
    ensures Scan(bytes, at + 2, Open(frames)) == Scan(bytes, end, Open(SetTop(frames, body)))
    decreases t, 0
  {
    ScanProps(bytes, at + 2, Open(frames), t.props);
    ScanAll(bytes, at + 2 + |Escape(t.props)|, frames, t.children, body, end);
  }

  lemma {:induction false} ScanAll(bytes: seq<Byte>, it: nat, frames: seq<Node>, ts: seq<Tree>, top: Node, end: nat)
    requires frames != [] && Sits(bytes, it, PrintAll(ts))
    requires top == WithChildren(Last(frames), ts, it) && end == it + |PrintAll(ts)|
    ensures Scan(bytes, it, Open(frames)) == Scan(bytes, end, Open(SetTop(frames, top)))
    decreases ts, 0
  {
    if ts == [] {
      assert SetTop(frames, Last(frames)) == frames;
    } else {
      var next := it + |Print(ts[0])|;
      SitsSplit(bytes, it, Print(ts[0]), PrintAll(ts[1..]));
      ScanTree(bytes, it, frames, ts[0], next);
      var top' := AddChild(EndProps(Last(frames), it), Layout(ts[0], it));
      ChildrenCons(Last(frames), ts, it);
      ScanAll(bytes, next, SetTop(frames, top'), ts[1..], top, end);
      assert SetTop(SetTop(frames, top'), top) == SetTop(frames, top);
    }
  }

  lemma ChildrenCons(n: Node, ts: seq<Tree>, at: nat)
    requires ts != []
    ensures WithChildren(AddChild(EndProps(n, at), Layout(ts[0], at)), ts[1..], at + |Print(ts[0])|)
         == WithChildren(n, ts, at)
  {
    Adopted(n, at, Layout(ts[0], at), LayoutAll(ts[1..], at + |Print(ts[0])|), at + |Print(ts[0])|);
  }

  /** Adding one child and then others is adding them all. */
  lemma Adopted(n: Node, at: nat, first: Node, others: seq<Node>, next: nat)
    ensures var one := AddChild(EndProps(n, at), first);
            var all := EndProps(n, at).(children := n.children + ([first] + others));
            EndProps(one, next).(children := one.children + others) == all && (others == [] ==> one == all)
  {
    assert n.children + [first] + others == n.children + ([first] + others);
  }

  /** The layout of a printed tree lies in the file and reads back as the tree. */
  lemma {:induction false} LayoutContent(bytes: seq<Byte>, at: nat, t: Tree)
    requires Sits(bytes, at, Print(t))
    ensures InFile(bytes, Layout(t, at))
    ensures Content(bytes, Layout(t, at)) == t
    decreases t, 1
  {
    PrintSits(bytes, at, t);
    LayoutAllContent(bytes, at + 2 + |Escape(t.props)|, t.children);
    LayoutNode(bytes, at, t);
  }

  /** The node's own range, given that its children read back. */
  lemma LayoutNode(bytes: seq<Byte>, at: nat, t: Tree)
    requires Sits(bytes, at + 2, Escape(t.props))
    requires forall i :: 0 <= i < |t.children| ==>
               var n := LayoutAll(t.children, at + 2 + |Escape(t.props)|)[i];
               InFile(bytes, n) && Content(bytes, n) == t.children[i]
    ensures InFile(bytes, Layout(t, at)) && Content(bytes, Layout(t, at)) == t
  {
    UnescapeEscape(t.props);
    NodeContent(bytes, Layout(t, at), t);
  }

  lemma NodeContent(bytes: seq<Byte>, n: Node, t: Tree)
    requires n.kind == t.kind && n.propsEnd.Some? && n.propsBegin <= n.propsEnd.value <= |bytes|
    requires Unescape(bytes[n.propsBegin..n.propsEnd.value]) == t.props && |n.children| == |t.children|
    requires forall i :: 0 <= i < |t.children| ==>
             InFile(bytes, n.children[i]) && Content(bytes, n.children[i]) == t.children[i]
    ensures InFile(bytes, n) && Content(bytes, n) == t
  {
    assert Content(bytes, n).children == t.children;
  }

  lemma {:induction false} LayoutAllContent(bytes: seq<Byte>, at: nat, ts: seq<Tree>)
    requires Sits(bytes, at, PrintAll(ts))
    ensures forall i :: 0 <= i < |ts| ==>
              InFile(bytes, LayoutAll(ts, at)[i]) && Content(bytes, LayoutAll(ts, at)[i]) == ts[i]
    decreases ts, 0
  {
    if ts != [] {
      SitsSplit(bytes, at, Print(ts[0]), PrintAll(ts[1..]));
      LayoutContent(bytes, at, ts[0]);
      var next := at + |Print(ts[0])|;
      LayoutAllContent(bytes, next, ts[1..]);
      var ns := LayoutAll(ts, at);
      forall i | 0 <= i < |ts| ensures InFile(bytes, ns[i]) && Content(bytes, ns[i]) == ts[i] {
        if i > 0 {
          assert ns[i] == LayoutAll(ts[1..], next)[i - 1] && ts[i] == ts[1..][i - 1];
        }
      }
    }
  }

  /** A whole file: identifier, then the printed root. */
  function File(identifier: seq<Byte>, t: Tree): (r: seq<Byte>) {
    identifier + Print(t)
  }

  /** The tree a file loads as, if it loads. */
  ghost function Load(accepted: seq<Byte>, bytes: seq<Byte>): (r: Option<Tree>) {
    var root := Parse(accepted, bytes);
    if root.Some? && InFile(bytes, root.value) then Some(Content(bytes, root.value)) else None
  }

  /**
   Main result: printing and loading gives back exactly the tree, for every tree with any type
   bytes and any property bytes, except that a root with neither properties nor children makes a
   file of the minimal size, which the loader rejects.
   */
  lemma RoundTrip(accepted: seq<Byte>, identifier: seq<Byte>, t: Tree)
    requires |identifier| == IDENTIFIER_SIZE && (identifier == accepted || identifier == WILDCARD)
    ensures Load(accepted, File(identifier, t)) == Some(t) <==> t.props != [] || t.children != []
    ensures t.props == [] && t.children == [] ==> Parse(accepted, File(identifier, t)) == None
  {
    var bytes := File(identifier, t);
    var at := |identifier|;
    assert Sits(bytes, at, Print(t));
    PrintSits(bytes, at, t);
    assert bytes[..at] == identifier;
    if t.props == [] && t.children == [] {
      assert |bytes| == MINIMAL_SIZE;
    } else {
      NonEmpty(t);
      ScanRoot(bytes, at, t);
      LayoutContent(bytes, at, t);
    }
  }

  /** The root, printed at the end of the file. */
  lemma ScanRoot(bytes: seq<Byte>, at: nat, t: Tree)
    requires Sits(bytes, at, Print(t)) && at + |Print(t)| == |bytes| && at + 2 <= |bytes|
    ensures Scan(bytes, at + 2, Open([NewNode(t.kind, at + 2)])) == Some(Layout(t, at))
  {
    PrintSits(bytes, at, t);
    var body := Body(t, at);
    ScanBody(bytes, at, [NewNode(t.kind, at + 2)], t, body, |bytes| - 1);
    assert SetTop([NewNode(t.kind, at + 2)], body) == [body];
    LayoutIsBody(t, at);
    ScanRootEnd(bytes, body);
  }

  lemma ScanRootEnd(bytes: seq<Byte>, body: Node)
    requires bytes != [] && bytes[|bytes| - 1] == END
    ensures Scan(bytes, |bytes| - 1, Open([body])) == Some(EndProps(body, |bytes| - 1))
  {
  }

  lemma NonEmpty(t: Tree)
    requires t.props != [] || t.children != []
    ensures |Print(t)| > 3
  {
    if t.props == [] {
      PrintLength(t.children[0]);
    }
  }

  lemma PrintLength(t: Tree)
    ensures |Print(t)| >= 3
  {
  }

  /** Every file that loads at all yields ranges inside the file, so reading them is safe. */
  lemma {:induction false} ScanInFile(bytes: seq<Byte>, it: nat, z: Zipper)
    requires it <= |bytes|
    requires z.Open? ==> z.frames != [] && forall k :: 0 <= k < |z.frames| ==> OpenInFile(bytes, it, z.frames[k])
    requires z.Open? ==> forall k :: 0 <= k < |z.frames| - 1 ==> z.frames[k].propsEnd.Some?
    requires z.Closed? ==> InFile(bytes, z.root)
    ensures Scan(bytes, it, z).Some? ==> InFile(bytes, Scan(bytes, it, z).value)
    decreases |bytes| - it
  {
    if it < |bytes| {
      if bytes[it] == START {
        if z.Open? && it + 1 < |bytes| {
          ScanInFile(bytes, it + 2, Open(OpenChild(z.frames, it, bytes[it + 1])));
        }
      } else if bytes[it] == END {
        if z.Open? {
          var z' := CloseTop(z.frames, it);
          if z'.Open? {
            assert forall k :: 0 <= k < |z'.frames| - 1 ==> z'.frames[k] == z.frames[k];
          }
          ScanInFile(bytes, it + 1, z');
        }
      } else if bytes[it] == ESCAPE {
        if it + 1 < |bytes| {
          ScanInFile(bytes, it + 2, z);
        }
      } else {
        ScanInFile(bytes, it + 1, z);
      }
    }
  }

  /** An open node: its range starts before the scanner and is closed once it has a child. */
  ghost predicate OpenInFile(bytes: seq<Byte>, it: nat, n: Node) {
    && n.propsBegin <= it
    && (n.children != [] ==> n.propsEnd.Some?)
    && (n.propsEnd.Some? ==> n.propsBegin <= n.propsEnd.value <= |bytes|)
    && forall i :: 0 <= i < |n.children| ==> InFile(bytes, n.children[i])
  }

  lemma ParsedInFile(accepted: seq<Byte>, bytes: seq<Byte>)
    ensures Parse(accepted, bytes).Some? ==> InFile(bytes, Parse(accepted, bytes).value)
  {
    if |bytes| > MINIMAL_SIZE {
      ScanInFile(bytes, IDENTIFIER_SIZE + 2, Open([NewNode(bytes[IDENTIFIER_SIZE + 1], IDENTIFIER_SIZE + 2)]));
    }
  }
}
