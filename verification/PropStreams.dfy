/** The byte streams of src/fileloader.h: little-endian words appended to and read off a buffer. */
module PropStreams {
  import opened Basics

  function Power256(k: nat): (p: nat)
    ensures p > 0
  {
    if k == 0 then 1 else 256 * Power256(k - 1)
  }

  /** The k bytes of v, lowest first. */
  function Bytes(v: nat, k: nat): (s: seq<Byte>)
    ensures |s| == k
    decreases k, v
  {
    if k == 0 then [] else [v % 256] + Bytes(v / 256, k - 1)
  }

  function Value(s: seq<Byte>): (v: nat) {
    if s == [] then 0 else s[0] + 256 * Value(s[1..])
  }

  /** Byte i of a word is its i-th digit to the base 256, lowest first. */
  lemma {:induction false} LittleEndian(v: nat, k: nat, i: nat)
    requires i < k
    ensures Bytes(v, k)[i] == v / Power256(i) % 256
    decreases i
  {
    if i > 0 {
      LittleEndian(v / 256, k - 1, i - 1);
      DivideTwice(v, Power256(i - 1));
    }
  }

  lemma DivideTwice(v: nat, p: nat)
    requires p > 0
    ensures v / 256 / p == v / (256 * p)
  {
    var q := v / 256 / p;
    var r := v / 256 % p;
    assert v / 256 == p * q + r;
    assert v == 256 * (p * q + r) + v % 256;
    assert 256 * (p * q + r) == (256 * p) * q + 256 * r;
    QuotientIs(v, 256 * p, q, 256 * r + v % 256);
  }

  lemma QuotientIs(v: nat, n: nat, q: nat, r: nat)
    requires r < n && v == n * q + r
    ensures v / n == q
  {
    var d := v / n - q;
    assert n * d == n * (v / n) - n * q == r - v % n;
  }

  /** A word that fits reads back as it was written. */
  lemma {:induction false} ValueBytes(v: nat, k: nat)
    requires v < Power256(k)
    ensures Value(Bytes(v, k)) == v
  {
    if k > 0 {
      ValueBytes(v / 256, k - 1);
      assert Bytes(v, k)[1..] == Bytes(v / 256, k - 1);
    }
  }

  /** read<T>: the next k bytes and what is left, or nothing when fewer are left. */
  function Read(s: seq<Byte>, k: nat): (r: Option<(nat, seq<Byte>)>) {
    if |s| < k then None else Some((Value(s[..k]), s[k..]))
  }

  lemma ReadBytes(v: nat, k: nat, rest: seq<Byte>)
    requires v < Power256(k)
    ensures Read(Bytes(v, k) + rest, k) == Some((v, rest))
  {
    ValueBytes(v, k);
    assert (Bytes(v, k) + rest)[..k] == Bytes(v, k) && (Bytes(v, k) + rest)[k..] == rest;
  }

  lemma Widths()
    ensures Power256(1) == 0x100 && Power256(4) == 0x1_0000_0000 && Power256(8) == 0x1_0000_0000_0000_0000
  {
    assert Power256(2) == 0x1_0000;
    assert Power256(3) == 0x100_0000;
    assert Power256(5) == 0x100_0000_0000;
    assert Power256(6) == 0x1_0000_0000_0000;
    assert Power256(7) == 0x100_0000_0000_0000;
  }

  class PropWriteStream {
    var buffer: seq<Byte>

    constructor ()
      ensures buffer == []
    {
      buffer := [];
    }

    method Write(v: nat, k: nat)
      modifies this
      ensures buffer == old(buffer) + Bytes(v, k)
    {
      var i, w := 0, v;
      while i < k
        invariant 0 <= i <= k
        invariant buffer + Bytes(w, k - i) == old(buffer) + Bytes(v, k)
      {
        buffer := buffer + [w % 256];
        i, w := i + 1, w / 256;
      }
    }
  }

  class PropStream {
    const data: seq<Byte>
    var p: nat

    constructor (bytes: seq<Byte>)
      ensures data == bytes && p == 0 && Valid()
    {
      data, p := bytes, 0;
    }

    ghost predicate Valid()
      reads this
    {
      p <= |data|
    }

    ghost function Rest(): (s: seq<Byte>)
      requires Valid()
      reads this
    {
      data[p..]
    }

    /** Reads one word; a stream that is too short is left where it is. */
    method ReadWord(k: nat) returns (ok: bool, v: nat)
      requires Valid()
      modifies this
      ensures Valid()
      ensures ok == Read(old(Rest()), k).Some?
      ensures ok ==> v == Read(old(Rest()), k).value.0 && Rest() == Read(old(Rest()), k).value.1
      ensures !ok ==> Rest() == old(Rest())
    {
      if |data| - p < k {
        return false, 0;
      }
      v := Value(data[p..p + k]);
      assert data[p..][..k] == data[p..p + k] && data[p..][k..] == data[p + k..];
      p := p + k;
      ok := true;
    }

    /** read<T> of a structure: its bytes, all or none. */
    method ReadRaw(k: nat) returns (ok: bool, bytes: seq<Byte>)
      requires Valid()
      modifies this
      ensures Valid() && ok == (k <= |old(Rest())|)
      ensures if ok then bytes == old(Rest())[..k] && Rest() == old(Rest())[k..] else Rest() == old(Rest())
    {
      if |data| - p < k {
        return false, [];
      }
      bytes := data[p..p + k];
      assert data[p..][..k] == bytes && data[p..][k..] == data[p + k..];
      p := p + k;
      ok := true;
    }

    method Skip(n: nat) returns (ok: bool)
      requires Valid()
      modifies this
      ensures Valid() && ok == (n <= |old(Rest())|)
      ensures Rest() == if ok then old(Rest())[n..] else old(Rest())
    {
      if |data| - p < n {
        return false;
      }
      assert data[p..][n..] == data[p + n..];
      p := p + n;
      return true;
    }
  }
}
