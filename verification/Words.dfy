/** Machine words of the Go source, as ranges of the unbounded integers. Every
    wrap-around is written out as a remainder where it happens. */
module Words {
  type u8 = x: int | 0 <= x < 0x100
  type u16 = x: int | 0 <= x < 0x1_0000
  type u32 = x: int | 0 <= x < 0x1_0000_0000

  const MAX_U32: u32 := 0xffff_ffff

  /** The top bit of a sequence word marks a reliable packet. */
  const RELIABLE_BIT: u32 := 0x8000_0000

  /** The sequence number: the low 31 bits of its word. */
  function Masked(word: u32): u32 {
    word % 0x8000_0000
  }

  predicate IsReliable(word: u32) {
    word >= 0x8000_0000
  }

  /** The order of sequence numbers: ahead by less than half of their half range. */
  predicate Newer(last: u32, sequence: u32) {
    var forward := (sequence - last) % 0x8000_0000;
    forward != 0 && forward < 0x4000_0000
  }

  /** Of two different numbers exactly one is newer, wherever the range wraps, unless
      they are exactly 2^30 apart; then neither is. */
  lemma OneIsNewer(a: u32, b: u32)
    requires a < 0x8000_0000 && b < 0x8000_0000
    ensures !(Newer(a, b) && Newer(b, a))
    ensures Newer(a, b) || Newer(b, a) <==> a != b && a - b != 0x4000_0000 && b - a != 0x4000_0000
    ensures a < b < a + 0x4000_0000 ==> Newer(a, b)
  {
    if a < b {
      assert (a - b) % 0x8000_0000 == a - b + 0x8000_0000;
    } else if b < a {
      assert (b - a) % 0x8000_0000 == b - a + 0x8000_0000;
    }
  }

  datatype Option<+T> = None | Some(value: T)

  lemma SubsetSize<T>(small: set<T>, large: set<T>)
    requires small <= large
    ensures |small| <= |large| && (|small| == |large| ==> small == large)
  {
    assert large == small + (large - small);
  }

  lemma Regroup<T>(a: seq<T>, b: seq<T>, c: seq<T>)
    ensures a + b + c == a + (b + c)
  {
  }

  /** Big-endian value of a byte string. */
  function Value(bytes: seq<u8>): nat {
    if bytes == [] then 0 else Value(bytes[..|bytes| - 1]) * 0x100 + bytes[|bytes| - 1]
  }

  /** Big-endian value of the first `count` bytes of a stream that continues
      with zeros after its last byte. */
  function Prefix(stream: seq<u8>, count: nat): nat {
    if count == 0 then 0
    else Prefix(stream, count - 1) * 0x100 + (if count <= |stream| then stream[count - 1] else 0)
  }

  lemma {:induction false} PrefixOfWhole(stream: seq<u8>, rest: seq<u8>)
    ensures Prefix(stream + rest, |stream|) == Value(stream)
    decreases |stream|
  {
    if stream != [] {
      var init, last := stream[..|stream| - 1], stream[|stream| - 1];
      assert stream + rest == init + ([last] + rest);
      PrefixOfWhole(init, [last] + rest);
    }
  }

  lemma {:induction false} PrefixIgnoresZeros(stream: seq<u8>, zeros: seq<u8>, count: nat)
    requires forall k :: 0 <= k < |zeros| ==> zeros[k] == 0
    ensures Prefix(stream + zeros, count) == Prefix(stream, count)
  {
    if count != 0 {
      PrefixIgnoresZeros(stream, zeros, count - 1);
    }
  }
}
