/** Flat memory: storing bytes, 64-bit words in little-endian order, and C strings. */
module Memory {
  import opened Core

  /** memcpy of `bytes` to offset `o`. */
  function Splice(m: seq<byte>, o: nat, bytes: seq<byte>): (r: seq<byte>)
    requires o + |bytes| <= |m|
    ensures |r| == |m|
    ensures r[o..o + |bytes|] == bytes
    ensures forall i :: 0 <= i < |m| && !(o <= i < o + |bytes|) ==> r[i] == m[i]
  {
    m[..o] + bytes + m[o + |bytes|..]
  }

  predicate Same(m: seq<byte>, r: seq<byte>, from: nat, to: nat) {
    |m| == |r| && forall i :: from <= i < to && i < |m| ==> r[i] == m[i]
  }

  lemma SameSlice(m: seq<byte>, r: seq<byte>, from: nat, to: nat, a: nat, b: nat)
    requires Same(m, r, from, to) && from <= a <= b <= to && b <= |m|
    ensures r[a..b] == m[a..b]
  {
  }

  function Bound(k: nat): (b: nat)
    ensures b > 0
  {
    if k == 0 then 1 else 256 * Bound(k - 1)
  }

  function ToLittle(v: nat, k: nat): (bytes: seq<byte>)
    ensures |bytes| == k
  {
    if k == 0 then [] else [v % 256] + ToLittle(v / 256, k - 1)
  }

  function FromLittle(bytes: seq<byte>): nat {
    if bytes == [] then 0 else bytes[0] as int + 256 * FromLittle(bytes[1..])
  }

  lemma {:induction false} LittleRoundTrip(v: nat, k: nat)
    requires v < Bound(k)
    ensures FromLittle(ToLittle(v, k)) == v
  {
    if k > 0 {
      LittleRoundTrip(v / 256, k - 1);
      assert ToLittle(v, k)[1..] == ToLittle(v / 256, k - 1);
    }
  }

  const WORD_SIZE: nat := 8

  function Word(v: nat): (bytes: seq<byte>)
    ensures |bytes| == 8
  {
    ToLittle(v, WORD_SIZE)
  }

  function ReadWord(m: seq<byte>, o: nat): nat
    requires o + 8 <= |m|
  {
    FromLittle(m[o..o + 8])
  }

  lemma WordRoundTrip(m: seq<byte>, o: nat, v: nat)
    requires o + 8 <= |m| && m[o..o + 8] == Word(v) && v < TWO_64
    ensures ReadWord(m, o) == v
  {
    assert Bound(WORD_SIZE) == TWO_64 by {
      assert Bound(4) == 0x1_0000_0000;
      assert Bound(6) == 0x1_0000_0000_0000;
      assert Bound(8) == TWO_64;
    }
    LittleRoundTrip(v, WORD_SIZE);
  }

  type int64 = x: int | -0x8000_0000_0000_0000 <= x < 0x8000_0000_0000_0000

  function Unsigned(x: int64): nat {
    if x < 0 then x + TWO_64 else x
  }

  function Signed(v: nat): int64 {
    if v < 0x8000_0000_0000_0000 then v
    else if v < TWO_64 then v - TWO_64
    else 0
  }

  /** An array of 64-bit integers. */
  function Words(xs: seq<int64>): (bytes: seq<byte>)
    ensures |bytes| == 8 * |xs|
  {
    if xs == [] then [] else Word(Unsigned(xs[0])) + Words(xs[1..])
  }

  function ReadWords(m: seq<byte>, o: nat, count: nat): (xs: seq<int64>)
    requires o + 8 * count <= |m|
    ensures |xs| == count
    decreases count
  {
    if count == 0 then [] else [Signed(ReadWord(m, o))] + ReadWords(m, o + 8, count - 1)
  }

  lemma {:induction false} WordsRoundTrip(m: seq<byte>, o: nat, xs: seq<int64>)
    requires o + 8 * |xs| <= |m| && m[o..o + 8 * |xs|] == Words(xs)
    ensures ReadWords(m, o, |xs|) == xs
    decreases |xs|
  {
    if xs != [] {
      var head, rest := Word(Unsigned(xs[0])), Words(xs[1..]);
      assert m[o..o + 8] == head by { assert m[o..o + 8] == m[o..o + 8 * |xs|][..8]; }
      WordRoundTrip(m, o, Unsigned(xs[0]));
      assert m[o + 8..o + 8 + 8 * |xs[1..]|] == rest by {
        assert m[o + 8..o + 8 * |xs|] == m[o..o + 8 * |xs|][8..];
      }
      WordsRoundTrip(m, o + 8, xs[1..]);
    }
  }

  /** The bytes up to the first zero byte. */
  function CString(m: seq<byte>, o: nat): seq<byte>
    decreases |m| - o
  {
    if o >= |m| || m[o] == 0 then [] else [m[o]] + CString(m, o + 1)
  }

  predicate Printable(name: seq<byte>) {
    forall i :: 0 <= i < |name| ==> name[i] != 0
  }

  lemma {:induction false} CStringRoundTrip(m: seq<byte>, o: nat, name: seq<byte>)
    requires Printable(name) && o + |name| + 1 <= |m| && m[o..o + |name| + 1] == name + [0]
    ensures CString(m, o) == name
    decreases |name|
  {
    var stored := m[o..o + |name| + 1];
    if name == [] {
      assert m[o] == stored[0];
    } else {
      assert m[o] == stored[0] == name[0];
      assert m[o + 1..o + 1 + |name[1..]| + 1] == stored[1..] == name[1..] + [0];
      CStringRoundTrip(m, o + 1, name[1..]);
    }
  }
}
