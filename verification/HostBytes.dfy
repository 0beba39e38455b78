/** Memory images of the fixed-width integers, for either byte order of the host. */
module HostBytes {
  import opened Layout

  datatype Order = LittleEndian | BigEndian

  type u16 = x: int | 0 <= x < 0x1_0000
  type u32 = x: int | 0 <= x < 0x1_0000_0000
  type i32 = x: int | -0x8000_0000 <= x < 0x8000_0000

  function Reverse(v: seq<byte>): (r: seq<byte>)
    ensures |r| == |v| && forall i :: 0 <= i < |v| ==> r[i] == v[|v| - 1 - i]
  {
    seq(|v|, i requires 0 <= i < |v| => v[|v| - 1 - i])
  }

  lemma ReverseTwice(v: seq<byte>)
    ensures Reverse(Reverse(v)) == v
  {
  }

  function InOrder(o: Order, little: seq<byte>): (r: seq<byte>)
    ensures |r| == |little|
  {
    if o.LittleEndian? then little else Reverse(little)
  }

  function U16Bytes(o: Order, n: u16): (r: seq<byte>)
    ensures |r| == 2
  {
    InOrder(o, [(n % 256) as byte, (n / 256) as byte])
  }

  function U16Of(o: Order, r: seq<byte>): u16
    requires |r| == 2
  {
    var b := InOrder(o, r);
    b[0] as int + 256 * b[1] as int
  }

  function Digits32(n: u32): (r: seq<byte>)
    ensures |r| == 4
  {
    var (n1, n2, n3) := (n / 256, n / 256 / 256, n / 256 / 256 / 256);
    [(n % 256) as byte, (n1 % 256) as byte, (n2 % 256) as byte, n3 as byte]
  }

  function U32Bytes(o: Order, n: u32): (r: seq<byte>)
    ensures |r| == 4
  {
    InOrder(o, Digits32(n))
  }

  function U32Of(o: Order, r: seq<byte>): u32
    requires |r| == 4
  {
    var b := InOrder(o, r);
    b[0] as int + 256 * b[1] as int + 65536 * b[2] as int + 16777216 * b[3] as int
  }

  /** Two's complement. */
  function ToU32(n: i32): u32 { if n < 0 then n + 0x1_0000_0000 else n }

  function ToI32(n: u32): i32 { if n < 0x8000_0000 then n else n - 0x1_0000_0000 }

  function I32Bytes(o: Order, n: i32): (r: seq<byte>)
    ensures |r| == 4
  {
    U32Bytes(o, ToU32(n))
  }

  function I32Of(o: Order, r: seq<byte>): i32
    requires |r| == 4
  {
    ToI32(U32Of(o, r))
  }

  lemma InOrderTwice(o: Order, v: seq<byte>)
    ensures InOrder(o, InOrder(o, v)) == v
  {
    ReverseTwice(v);
  }

  function Other(o: Order): Order { if o.LittleEndian? then BigEndian else LittleEndian }

  /** The place of the digit of weight 256^k among `n`. */
  function DigitAt(o: Order, n: nat, k: nat): nat
    requires k < n
  {
    match o
    case LittleEndian => k
    case BigEndian => n - 1 - k
  }

  /** What a number is in memory: its digits to the base 256, the least first or last. */
  lemma DigitsOfU16(o: Order, n: u16)
    ensures var r := U16Bytes(o, n);
            n == r[DigitAt(o, 2, 0)] as int + 0x100 * r[DigitAt(o, 2, 1)] as int
  {
  }

  lemma DigitsOfU32(o: Order, n: u32)
    ensures var r := U32Bytes(o, n);
            n == r[DigitAt(o, 4, 0)] as int + 0x100 * r[DigitAt(o, 4, 1)] as int
                 + 0x1_0000 * r[DigitAt(o, 4, 2)] as int + 0x100_0000 * r[DigitAt(o, 4, 3)] as int
  {
    U32RoundTrip(o, n);
    InOrderTwice(o, Digits32(n));
  }

  /** A negative number is in memory what it is modulo 2^32. */
  lemma DigitsOfI32(o: Order, n: i32)
    ensures I32Bytes(o, n) == U32Bytes(o, n % 0x1_0000_0000)
  {
    hide U32Bytes;
  }

  /** Reversing the bytes of a number gives it in the other byte order. */
  lemma ReversedIsOther(o: Order, n: u16, m: u32)
    ensures Reverse(U16Bytes(o, n)) == U16Bytes(Other(o), n) && Reverse(U32Bytes(o, m)) == U32Bytes(Other(o), m)
  {
    ReverseTwice([(n % 256) as byte, (n / 256) as byte]);
    ReverseTwice(Digits32(m));
  }

  lemma U16RoundTrip(o: Order, n: u16)
    ensures U16Of(o, U16Bytes(o, n)) == n
  {
    InOrderTwice(o, [(n % 256) as byte, (n / 256) as byte]);
  }

  lemma U16BytesOf(o: Order, v: seq<byte>)
    requires |v| == 2
    ensures U16Bytes(o, U16Of(o, v)) == v
  {
    var b := InOrder(o, v);
    InOrderTwice(o, v);
    hide InOrder;
    TwoDigits(b[0] as int, b[1] as int);
    assert [(U16Of(o, v) % 256) as byte, (U16Of(o, v) / 256) as byte] == b;
  }

  lemma TwoDigits(low: int, high: int)
    requires 0 <= low < 256 && 0 <= high < 256
    ensures (low + 256 * high) % 256 == low && (low + 256 * high) / 256 == high
  {
  }

  lemma U16IsZeroIff(o: Order, v: seq<byte>)
    requires |v| == 2
    ensures U16Of(o, v) == 0 <==> v == [0, 0]
  {
    hide U16Of, U16Bytes;
    U16BytesOf(o, v);
    ZeroBytes(o);
  }

  lemma ZeroBytes(o: Order)
    ensures U16Bytes(o, 0) == [0, 0] && U16Of(o, [0, 0]) == 0
  {
    assert Reverse([0, 0]) == [0, 0];
  }

  lemma U32RoundTrip(o: Order, n: u32)
    ensures U32Of(o, U32Bytes(o, n)) == n
  {
    var little := Digits32(n);
    InOrderTwice(o, little);
    var (n1, n2, n3) := (n / 256, n / 256 / 256, n / 256 / 256 / 256);
    assert n == 256 * n1 + n % 256 && n1 == 256 * n2 + n1 % 256 && n2 == 256 * n3 + n2 % 256;
  }

  lemma I32RoundTrip(o: Order, n: i32)
    ensures I32Of(o, I32Bytes(o, n)) == n
  {
    U32RoundTrip(o, ToU32(n));
  }

  /** Swaps the bytes of an object in place. */
  method SwapBytes(pv: array<byte>)
    modifies pv
    ensures pv[..] == Reverse(old(pv[..]))
  {
    var n := pv.Length;
    if n > 1 {
      var i := 0;
      while i < n / 2
        invariant 0 <= i <= n / 2
        invariant forall k :: 0 <= k < i ==> pv[k] == old(pv[n - 1 - k]) && pv[n - 1 - k] == old(pv[k])
        invariant forall k :: i <= k < n - i ==> pv[k] == old(pv[k])
      {
        var tmp := pv[i];
        pv[i] := pv[n - 1 - i];
        pv[n - 1 - i] := tmp;
        i := i + 1;
      }
    }
  }
}
