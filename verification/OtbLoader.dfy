/** The loader object of src/fileloader.cpp: the parsing loop and the bulk unescaper. */
module OtbLoader {
  import opened Basics
  import opened OtbFormat
  import opened OtbParser

  /** Before its first escape a range reads as itself. */
  lemma {:induction false} CleanRun(s: seq<Byte>, k: nat)
    requires k <= |s| && ESCAPE !in s[..k]
    ensures Unescape(s) == s[..k] + Unescape(s[k..])
  {
    if k > 0 {
      assert s[0] == s[..k][0];
      assert s[1..][..k - 1] == s[..k][1..];
      assert s[1..][k - 1..] == s[k..];
      CleanRun(s[1..], k - 1);
    } else {
      assert s[0..] == s;
    }
  }

  /** The reading of bytes[from..to]. */
  ghost function Reading(bytes: seq<Byte>, from: nat, to: nat): (r: seq<Byte>)
    requires from <= to <= |bytes|
  {
    Unescape(bytes[from..to])
  }

  lemma ReadRun(bytes: seq<Byte>, from: nat, esc: nat, to: nat)
    requires from <= esc <= to <= |bytes| && ESCAPE !in bytes[from..esc]
    ensures Reading(bytes, from, to) == bytes[from..esc] + Reading(bytes, esc, to)
  {
    var s := bytes[from..to];
    assert s[..esc - from] == bytes[from..esc] && s[esc - from..] == bytes[esc..to];
    CleanRun(s, esc - from);
  }

  lemma ReadEscape(bytes: seq<Byte>, esc: nat, to: nat)
    requires esc < to <= |bytes| && bytes[esc] == ESCAPE
    ensures Reading(bytes, esc, to) == if esc + 1 == to then [] else [bytes[esc + 1]] + Reading(bytes, esc + 2, to)
  {
    if esc + 1 != to {
      assert bytes[esc..to][2..] == bytes[esc + 2..to];
    }
  }

  /** std::memchr: the first position of `wanted` in bytes[from..to]. */
  method MemChr(bytes: seq<Byte>, wanted: Byte, from: nat, to: nat) returns (at: Option<nat>)
    requires from <= to <= |bytes|
    ensures at.None? ==> wanted !in bytes[from..to]
    ensures at.Some? ==> from <= at.value < to && bytes[at.value] == wanted && wanted !in bytes[from..at.value]
  {
    var i := from;
    while i < to
      invariant from <= i <= to
      invariant wanted !in bytes[from..i]
    {
      if bytes[i] == wanted {
        return Some(i);
      }
      assert bytes[from..i + 1] == bytes[from..i] + [bytes[i]];
      i := i + 1;
    }
    return None;
  }

  class Loader {
    const fileContents: seq<Byte>
    var root: Node
    var propBuffer: array<Byte>

    constructor (bytes: seq<Byte>)
      ensures fileContents == bytes && fresh(propBuffer)
    {
      fileContents := bytes;
      root := NewNode(0, 0);
      propBuffer := new Byte[0];
    }

    /**
     The whole of loading: identifier check, then the loop over the bytes. The result is the
     reference reading of the file; a format error is None.
     */
    method ParseTree(accepted: seq<Byte>) returns (result: Option<Node>)
      modifies this`root
      ensures result == Parse(accepted, fileContents)
      ensures result.Some? ==> root == result.value
    {
      var bytes := fileContents;
      if |bytes| <= MINIMAL_SIZE {
        return None;
      }
      if bytes[..IDENTIFIER_SIZE] != accepted && bytes[..IDENTIFIER_SIZE] != WILDCARD {
        return None;
      }
      var it := IDENTIFIER_SIZE;
      if bytes[it] != START {
        return None;
      }
      it := it + 1;
      root := NewNode(bytes[it], it + 1);
      it := it + 1;
      var stack: seq<Pointer> := [[]];
      ghost var zipper := Open([root]);
      while it != |bytes|
        invariant it <= |bytes|
        invariant Represents(Cursor(root, stack), zipper)
        invariant Parse(accepted, fileContents) == Scan(bytes, it, zipper)
        decreases |bytes| - it
      {
        RepresentsSpine(Cursor(root, stack), zipper);
        if bytes[it] == START {
          if stack == [] {
            return None;
          }
          AppendMovesNoOpenNode(Cursor(root, stack), |stack| - 1);
          var at := it;
          it := it + 1;
          if it == |bytes| {
            return None;
          }
          StartSimulates(Cursor(root, stack), zipper, at, bytes[it]);
          zipper := Open(OpenChild(zipper.frames, at, bytes[it]));
          var next := OnStart(Cursor(root, stack), at, bytes[it]);
          root, stack := next.root, next.stack;
        } else if bytes[it] == END {
          if stack == [] {
            return None;
          }
          EndSimulates(Cursor(root, stack), zipper, it);
          zipper := CloseTop(zipper.frames, it);
          var next := OnEnd(Cursor(root, stack), it);
          root, stack := next.root, next.stack;
        } else if bytes[it] == ESCAPE {
          it := it + 1;
          if it == |bytes| {
            return None;
          }
        }
        it := it + 1;
      }
      if stack != [] {
        return None;
      }
      return Some(root);
    }

    /** std::copy of fileContents[from..to] to the buffer at `dst`. */
    method CopyRun(from: nat, to: nat, dst: nat) returns (next: nat)
      requires from <= to <= |fileContents| && dst + (to - from) <= propBuffer.Length
      modifies propBuffer
      ensures next == dst + (to - from)
      ensures propBuffer[..next] == old(propBuffer[..dst]) + fileContents[from..to]
    {
      next := dst;
      var src := from;
      while src < to
        invariant from <= src <= to && next == dst + (src - from)
        invariant propBuffer[..next] == old(propBuffer[..dst]) + fileContents[from..src]
      {
        propBuffer[next] := fileContents[src];
        assert propBuffer[..next + 1] == propBuffer[..next] + [fileContents[src]];
        assert fileContents[from..src + 1] == fileContents[from..src] + [fileContents[src]];
        src, next := src + 1, next + 1;
      }
    }

    /**
     The properties of a node, unescaped in bulk runs. Whatever the range holds, the view is
     the byte-by-byte reading; without an escape it is the range itself and the buffer is not
     touched. Every write lands inside a buffer of the size of the range.
     */
    method GetProps(node: Node) returns (ok: bool, view: seq<Byte>)
      requires node.propsEnd.Some? && node.propsBegin <= node.propsEnd.value <= |fileContents|
      modifies this`propBuffer
      ensures ok == (node.propsBegin != node.propsEnd.value)
      ensures view == Unescape(fileContents[node.propsBegin..node.propsEnd.value])
      ensures propBuffer == old(propBuffer) || fresh(propBuffer)
      ensures ESCAPE !in fileContents[node.propsBegin..node.propsEnd.value] ==>
                view == fileContents[node.propsBegin..node.propsEnd.value] && propBuffer == old(propBuffer)
    {
      var begin, end := node.propsBegin, node.propsEnd.value;
      if begin == end {
        return false, [];
      }
      var found := MemChr(fileContents, ESCAPE, begin, end);
      if found.None? {
        ReadRun(fileContents, begin, end, end);
        return true, fileContents[begin..end];
      }
      propBuffer := new Byte[end - begin];
      var dst := Unescaped(begin, found.value, end);
      return true, propBuffer[..dst];
    }

    /** One turn of the loop: the clean run, the marker, and the byte it protects, if any. */
    method OneEscape(src: nat, esc: nat, end: nat, dst: nat) returns (src': nat, dst': nat)
      requires src <= esc < end <= |fileContents| && dst + (end - src) <= propBuffer.Length
      requires fileContents[esc] == ESCAPE && ESCAPE !in fileContents[src..esc]
      modifies propBuffer
      ensures esc < src' <= end && dst' - dst < src' - src
      ensures dst <= dst' <= propBuffer.Length
      ensures propBuffer[..dst'] + Reading(fileContents, src', end) == old(propBuffer[..dst]) +
              Reading(fileContents, src, end)
    {
      ReadRun(fileContents, src, esc, end);
      ReadEscape(fileContents, esc, end);
      dst' := CopyRun(src, esc, dst);
      src' := esc + 1;
      if src' != end {
        ghost var written := propBuffer[..dst'];
        propBuffer[dst'] := fileContents[src'];
        assert propBuffer[..dst' + 1] == written + [fileContents[src']];
        dst', src' := dst' + 1, src' + 1;
      }
    }

    /** The slow path, from the first escape on. */
    method Unescaped(begin: nat, first: nat, end: nat) returns (dst: nat)
      requires begin <= first < end <= |fileContents| && propBuffer.Length == end - begin
      requires fileContents[first] == ESCAPE && ESCAPE !in fileContents[begin..first]
      modifies propBuffer
      ensures dst <= propBuffer.Length
      ensures propBuffer[..dst] == Reading(fileContents, begin, end)
    {
      ghost var whole := Reading(fileContents, begin, end);
      dst := 0;
      var src, esc := begin, first;
      while true
        invariant begin <= src <= esc < end
        invariant dst <= src - begin
        invariant fileContents[esc] == ESCAPE && ESCAPE !in fileContents[src..esc]
        invariant propBuffer[..dst] + Reading(fileContents, src, end) == whole
        decreases end - esc
      {
        src, dst := OneEscape(src, esc, end, dst);
        if src == end {
          break;
        }
        if fileContents[src] == ESCAPE {
          esc := src;
          continue;
        }
        var next := MemChr(fileContents, ESCAPE, src + 1, end);
        if next.None? {
          assert fileContents[src..end] == [fileContents[src]] + fileContents[src + 1..end];
          ReadRun(fileContents, src, end, end);
          dst := CopyRun(src, end, dst);
          break;
        }
        assert fileContents[src..next.value] == [fileContents[src]] + fileContents[src + 1..next.value];
        esc := next.value;
      }
    }
  }
}
