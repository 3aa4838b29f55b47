/**
 * Python's `format(n, '08b')` for the small numbers the fault decoder feeds it,
 * and the fact that its character at index 4 is the bit of weight 8.
 */
module Binary {

  function Pow2(k: nat): (p: nat)
    ensures p >= 1
  {
    if k == 0 then 1 else 2 * Pow2(k - 1)
  }

  /** The `width` lowest bits of `n` as '0'/'1' characters, most significant first. */
  function Bits(n: nat, width: nat): (r: string)
    ensures |r| == width
    ensures forall k :: 0 <= k < width ==> r[k] == '0' || r[k] == '1'
  {
    if width == 0 then []
    else Bits(n / 2, width - 1) + [if n % 2 == 1 then '1' else '0']
  }

  /** The number a string of '0'/'1' characters denotes (any other character reads as 0). */
  function BinValue(s: string): nat
  {
    if s == [] then 0 else 2 * BinValue(s[..|s| - 1]) + (if s[|s| - 1] == '1' then 1 else 0)
  }

  /** `format(n, '08b')`: `n` in binary, left-padded with '0' to eight characters. */
  function Format08b(n: nat): (r: string)
    requires n < 256
    ensures |r| == 8
  {
    Bits(n, 8)
  }

  /** Reading back a rendering that is wide enough gives the number rendered. */
  lemma {:induction false} BitsValue(n: nat, width: nat)
    requires n < Pow2(width)
    ensures BinValue(Bits(n, width)) == n
  {
    if width > 0 {
      BitsValue(n / 2, width - 1);
      var r := Bits(n, width);
      assert r[..width - 1] == Bits(n / 2, width - 1);
    }
  }

  /** `format(n, '08b')` is a faithful rendering: it reads back as `n`. */
  lemma Format08bValue(n: nat)
    requires n < 256
    ensures BinValue(Format08b(n)) == n
  {
    assert Pow2(8) == 256;
    BitsValue(n, 8);
  }

  /** The bit of `n` of weight 2^j. */
  function Bit(n: nat, j: nat): (b: nat)
    ensures b < 2
  {
    if j == 0 then n % 2 else Bit(n / 2, j - 1)
  }

  /** The character at index `k` of a `width`-wide rendering is the bit of weight 2^(width-1-k). */
  lemma {:induction false} BitsAt(n: nat, width: nat, k: nat)
    requires k < width
    ensures Bits(n, width)[k] == (if Bit(n, width - 1 - k) == 1 then '1' else '0')
  {
    if k < width - 1 {
      BitsAt(n / 2, width - 1, k);
    }
  }

  /** Index 4 of `format(n, '08b')` is '1' exactly when the bit of weight 8 is set. */
  lemma Format08bIndex4(n: nat)
    requires n < 256
    ensures Format08b(n)[4] == '1' <==> (n / 8) % 2 == 1
  {
    BitsAt(n, 8, 4);
    assert Bit(n, 3) == Bit(n / 2, 2) == Bit(n / 2 / 2, 1) == Bit(n / 2 / 2 / 2, 0);
    assert n / 2 / 2 / 2 == n / 8;
  }
}
