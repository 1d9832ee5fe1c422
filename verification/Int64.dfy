/** Go's signed 64-bit integers. */
module Int64 {

  const TWO_63: int := 0x8000_0000_0000_0000
  const TWO_64: int := 0x1_0000_0000_0000_0000

  /** The value an int64 operation leaves when its exact result is x. */
  function Wrap64(x: int): (r: int)
    ensures -TWO_63 <= r < TWO_63
    ensures -TWO_63 <= x < TWO_63 ==> r == x
  {
    (x + TWO_63) % TWO_64 - TWO_63
  }

  /** It is the only value in range that differs from x by a multiple of 2^64. */
  lemma Wrap64Exactly(x: int, r: int)
    ensures r == Wrap64(x) <==> -TWO_63 <= r < TWO_63 && (r - x) % TWO_64 == 0
  {
    var q := (x + TWO_63) / TWO_64;
    assert Wrap64(x) == x - q * TWO_64;
    if -TWO_63 <= r < TWO_63 && (r - x) % TWO_64 == 0 {
      var m := (r - x) / TWO_64;
      assert r == x + m * TWO_64;
      assert -1 < m + q < 1;
    }
  }
}
