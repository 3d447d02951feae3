/** The C integer widths the sources compute with, written out on unbounded integers. */
module MachineInts {
  const TWO16 := 0x1_0000
  const TWO31 := 0x8000_0000
  const TWO32 := 0x1_0000_0000

  type u8 = x: int | 0 <= x < 0x100
  type u16 = x: int | 0 <= x < 0x1_0000
  type u32 = x: int | 0 <= x < 0x1_0000_0000

  /** Conversion to an unsigned 16-bit value. */
  function U16(x: int): u16 { x % TWO16 }

  /** Conversion to an unsigned 32-bit value. */
  function U32(x: int): u32 { x % TWO32 }

  /** Conversion to a signed 32-bit value (two's complement). */
  function Int32(x: int): int {
    if U32(x) < TWO31 then U32(x) else U32(x) - TWO32
  }

  /** Conversion ignores multiples of 2^32. */
  lemma WrapShift(x: int, k: int)
    ensures U32(x + k * TWO32) == U32(x) && Int32(x + k * TWO32) == Int32(x)
  {
  }

  /** A conversion changes the value by a multiple of 2^32. */
  lemma WrapIsShift(x: int) returns (k: int)
    ensures Int32(U32(x)) == x + k * TWO32
  {
    k := -(x / TWO32);
    assert x == (x / TWO32) * TWO32 + U32(x);
    if U32(x) >= TWO31 {
      k := k - 1;
    }
  }

  /** A remainder of a number below twice the modulus. */
  lemma ModOnce(x: int, m: int)
    requires 0 < m && 0 <= x < 2 * m
    ensures x % m == if x < m then x else x - m
  {
    var q := x / m;
    assert x == q * m + x % m;
    assert q <= 0 ==> q * m <= 0;
    assert q >= 2 ==> q * m >= 2 * m;
  }

  lemma U16Successor(x: int)
    ensures U16(U16(x) + 1) == U16(x + 1)
  {
  }

  /** Small values survive both conversions. */
  lemma SmallInt(x: int)
    requires 0 <= x < TWO31
    ensures U32(x) == x && Int32(x) == x
  {
  }
}

module Options {
  datatype Option<+T> = None | Some(value: T)

  /** The first element with the property: every list scan of the sources that stops at a match. */
  function FirstIndex<T>(s: seq<T>, p: T -> bool): (r: Option<nat>)
    ensures r.Some? ==> r.value < |s| && p(s[r.value]) && forall k :: 0 <= k < r.value ==> !p(s[k])
    ensures r == None ==> forall k :: 0 <= k < |s| ==> !p(s[k])
  {
    if s == [] then None
    else if p(s[0]) then Some(0)
    else
      var r := FirstIndex(s[1..], p);
      assert forall k :: 1 <= k < |s| ==> s[k] == s[1..][k - 1];
      if r.Some? then Some(r.value + 1) else None
  }
}
