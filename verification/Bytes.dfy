/** Bytes, fixed-width little-endian integers, and the one way a page is ever changed:
    a byte range of it is overwritten. */
module Bytes {
  type byte = x: int | 0 <= x < 256

  const PAGE_BODY_SIZE: nat := 32749

  function ZeroPage(): (page: seq<byte>)
    ensures |page| == PAGE_BODY_SIZE
  {
    seq(PAGE_BODY_SIZE, _ => 0)
  }

  /** `page` with the bytes from `offset` on replaced by `data`. */
  function Overlay(page: seq<byte>, offset: nat, data: seq<byte>): (r: seq<byte>)
    ensures |r| == |page|
    ensures offset + |data| <= |page| ==> r == page[..offset] + data + page[offset + |data|..]
  {
    seq(|page|, i requires 0 <= i < |page| => if offset <= i < offset + |data| then data[i - offset] else page[i])
  }

  /** Writing back the bytes a write replaced cancels the write. */
  lemma OverlayInverse(page: seq<byte>, offset: nat, data: seq<byte>)
    requires offset + |data| <= |page|
    ensures Overlay(Overlay(page, offset, data), offset, page[offset..offset + |data|]) == page
  {
  }

  lemma OverlayNothing(page: seq<byte>, offset: nat, data: seq<byte>)
    ensures data == [] ==> Overlay(page, offset, data) == page
  {
  }

  function Pow256(width: nat): (r: nat)
    ensures r > 0
  {
    if width == 0 then 1 else 256 * Pow256(width - 1)
  }

  /** The little-endian representation of `n` in `width` bytes. */
  function ToLE(n: nat, width: nat): (r: seq<byte>)
    ensures |r| == width
    decreases width, n
  {
    if width == 0 then [] else [n % 256] + ToLE(n / 256, width - 1)
  }

  function FromLE(bytes: seq<byte>): nat {
    if bytes == [] then 0 else bytes[0] + 256 * FromLE(bytes[1..])
  }

  lemma {:induction false} FromToLE(n: nat, width: nat)
    requires n < Pow256(width)
    ensures FromLE(ToLE(n, width)) == n
  {
    if width > 0 {
      FromToLE(n / 256, width - 1);
      assert ToLE(n, width)[1..] == ToLE(n / 256, width - 1);
    }
  }

  lemma Pow256Values()
    ensures Pow256(1) == 0x100 && Pow256(2) == 0x1_0000
    ensures Pow256(4) == 0x1_0000_0000 && Pow256(8) == 0x1_0000_0000_0000_0000
  {
    assert Pow256(3) == 0x100_0000;
    assert Pow256(5) == 0x100_0000_0000 && Pow256(6) == 0x1_0000_0000_0000 && Pow256(7) == 0x100_0000_0000_0000;
  }
}
