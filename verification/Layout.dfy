/** Placement of values in a byte area: each chunk starts at the next multiple of its
    alignment.  The buffer codec and the binary streams both follow this layout, so their
    properties are stated against the definitions below. */
module Layout {

  newtype byte = x: int | 0 <= x < 256

  type Pos = x: int | 1 <= x witness 1

  /** `data` stored at the next multiple of `al`. */
  datatype Chunk = Chunk(al: Pos, data: seq<byte>)

  /** The least multiple of `a` that is not below `p`. */
  function AlignUp(p: nat, a: Pos): (q: nat)
    ensures p <= q < p + a && q % a == 0
  {
    if p % a == 0 then p
    else
      assert (p + (a - p % a)) % a == 0 by { NextMultiple(p, a); }
      p + (a - p % a)
  }

  lemma NextMultiple(p: nat, a: Pos)
    ensures (p + (a - p % a)) % a == 0
  {
    assert p + (a - p % a) == a * (p / a + 1);
    MultipleMod(p / a + 1, a);
  }

  lemma MultipleMod(k: nat, a: Pos)
    ensures (a * k) % a == 0
  {
    var q, r := (a * k) / a, (a * k) % a;
    assert a * (k - q) == r;
    FactorBound(a, k - q);
  }

  lemma FactorBound(a: Pos, d: int)
    ensures d >= 1 ==> a * d >= a
    ensures d <= -1 ==> a * d <= -(a as int)
  {
  }

  /** Position after the chunks `cs` laid out from `p`. */
  function End(p: nat, cs: seq<Chunk>): (e: nat)
    ensures p <= e
    decreases |cs|
  {
    if cs == [] then p
    else End(AlignUp(p, cs[0].al) + |cs[0].data|, cs[1..])
  }

  /** `mem` carries every chunk of `cs` at its place; padding bytes may be anything. */
  predicate Holds(mem: seq<byte>, p: nat, cs: seq<Chunk>)
    decreases |cs|
  {
    cs == [] ||
    (var q := AlignUp(p, cs[0].al);
     && q + |cs[0].data| <= |mem|
     && mem[q..q + |cs[0].data|] == cs[0].data
     && Holds(mem, q + |cs[0].data|, cs[1..]))
  }

  /** `mem` with `data` written over it from position `q`. */
  function Blit<T>(mem: seq<T>, q: nat, data: seq<T>): (r: seq<T>)
    requires q + |data| <= |mem|
    ensures |r| == |mem|
    ensures forall i :: 0 <= i < |mem| ==> r[i] == if q <= i < q + |data| then data[i - q] else mem[i]
  {
    seq(|mem|, i requires 0 <= i < |mem| => if q <= i < q + |data| then data[i - q] else mem[i])
  }

  /** `mem` after the chunks are stored from `p`, padding left as it was. */
  function Place(mem: seq<byte>, p: nat, cs: seq<Chunk>): (r: seq<byte>)
    requires End(p, cs) <= |mem|
    ensures |r| == |mem|
    decreases |cs|
  {
    if cs == [] then mem
    else
      var q := AlignUp(p, cs[0].al);
      Place(Blit(mem, q, cs[0].data), q + |cs[0].data|, cs[1..])
  }

  function Zeros(n: nat): (z: seq<byte>)
    ensures |z| == n && forall i :: 0 <= i < n ==> z[i] == 0
  {
    seq(n, _ => 0)
  }

  /** As `Place`, with every padding byte overwritten by zero. */
  function PlaceZeroed(mem: seq<byte>, p: nat, cs: seq<Chunk>): (r: seq<byte>)
    requires End(p, cs) <= |mem|
    ensures |r| == |mem|
    decreases |cs|
  {
    if cs == [] then mem
    else
      var q := AlignUp(p, cs[0].al);
      PlaceZeroed(Blit(mem, p, Zeros(q - p) + cs[0].data), q + |cs[0].data|, cs[1..])
  }

  lemma {:induction false} EndSplit(p: nat, cs: seq<Chunk>, ds: seq<Chunk>)
    ensures End(p, cs + ds) == End(End(p, cs), ds)
    decreases |cs|
  {
    if cs == [] {
      assert cs + ds == ds;
    } else {
      assert (cs + ds)[1..] == cs[1..] + ds;
      EndSplit(AlignUp(p, cs[0].al) + |cs[0].data|, cs[1..], ds);
    }
  }

  lemma {:induction false} HoldsSplit(mem: seq<byte>, p: nat, cs: seq<Chunk>, ds: seq<Chunk>)
    ensures Holds(mem, p, cs + ds) <==> Holds(mem, p, cs) && Holds(mem, End(p, cs), ds)
    decreases |cs|
  {
    if cs == [] {
      assert cs + ds == ds;
    } else {
      assert (cs + ds)[1..] == cs[1..] + ds;
      HoldsSplit(mem, AlignUp(p, cs[0].al) + |cs[0].data|, cs[1..], ds);
    }
  }

  lemma OneChunk(mem: seq<byte>, p: nat, c: Chunk)
    ensures End(p, [c]) == AlignUp(p, c.al) + |c.data|
    ensures Holds(mem, p, [c]) <==>
              (var q := AlignUp(p, c.al); q + |c.data| <= |mem| && mem[q..q + |c.data|] == c.data)
  {
    hide AlignUp;
    assert [c][1..] == [];
  }

  /** Storing one more chunk behind others keeps them. */
  lemma HoldsAppend(mem: seq<byte>, cs: seq<Chunk>, c: Chunk)
    requires Holds(mem, 0, cs) && AlignUp(End(0, cs), c.al) + |c.data| <= |mem|
    ensures var q := AlignUp(End(0, cs), c.al);
            End(0, cs + [c]) == q + |c.data| && Holds(Blit(mem, q, c.data), 0, cs + [c])
  {
    hide AlignUp, Holds, End, Blit;
    var p, q := End(0, cs), AlignUp(End(0, cs), c.al);
    var r := Blit(mem, q, c.data);
    EndSplit(0, cs, [c]);
    HoldsSplit(r, 0, cs, [c]);
    BlitParts(mem, q, c.data);
    SliceOfPrefix(mem, r, q, 0, p);
    HoldsPrefix(mem, r, 0, cs);
    OneChunk(r, p, c);
  }

  lemma BlitParts<T>(mem: seq<T>, q: nat, data: seq<T>)
    requires q + |data| <= |mem|
    ensures var r := Blit(mem, q, data); r[q..q + |data|] == data && r[..q] == mem[..q]
  {
  }

  lemma DropDrop<T>(s: seq<T>, i: nat, j: nat)
    requires i + j <= |s|
    ensures s[i..][j..] == s[i + j..]
  {
  }

  lemma SliceOfSlice<T>(s: seq<T>, a: nat, b: nat, i: nat, j: nat)
    requires a <= b <= |s| && i <= j <= b - a
    ensures s[a..b][i..j] == s[a + i..a + j]
  {
    var t := s[a..b];
    forall k | 0 <= k < j - i ensures t[i..j][k] == s[a + i..a + j][k] {
      assert t[i + k] == s[a + (i + k)];
    }
  }

  lemma JoinSlices<T>(s: seq<T>, i: nat, j: nat, k: nat)
    requires i <= j <= k <= |s|
    ensures s[i..j] + s[j..k] == s[i..k]
  {
  }

  lemma SliceOfPrefix(m: seq<byte>, m': seq<byte>, n: nat, q: nat, e: nat)
    requires q <= e <= n <= |m| && n <= |m'| && m[..n] == m'[..n]
    ensures m[q..e] == m'[q..e]
  {
    assert m[q..e] == m[..n][q..e] && m'[q..e] == m'[..n][q..e];
  }

  /** Only the bytes below the end of the layout matter. */
  lemma {:induction false} HoldsPrefix(mem: seq<byte>, mem': seq<byte>, p: nat, cs: seq<Chunk>)
    requires Holds(mem, p, cs)
    requires End(p, cs) <= |mem'| && End(p, cs) <= |mem| && mem[..End(p, cs)] == mem'[..End(p, cs)]
    ensures Holds(mem', p, cs)
    decreases |cs|
  {
    hide AlignUp;
    if cs != [] {
      var q := AlignUp(p, cs[0].al);
      var e := q + |cs[0].data|;
      HoldsPrefix(mem, mem', e, cs[1..]);
      SliceOfPrefix(mem, mem', End(p, cs), q, e);
    }
  }

  /** `r` and `mem` differ at most between `p` and `e`. */
  ghost predicate SameOutside(mem: seq<byte>, r: seq<byte>, p: nat, e: nat) {
    |r| == |mem| && forall i :: (0 <= i < p || e <= i < |mem|) && i < |mem| ==> r[i] == mem[i]
  }

  /** Storing chunks makes them readable and touches nothing outside their area. */
  lemma {:induction false} PlaceHolds(mem: seq<byte>, p: nat, cs: seq<Chunk>)
    requires End(p, cs) <= |mem|
    ensures Holds(Place(mem, p, cs), p, cs) && SameOutside(mem, Place(mem, p, cs), p, End(p, cs))
    decreases |cs|
  {
    hide AlignUp, Blit;
    if cs != [] {
      var q := AlignUp(p, cs[0].al);
      var e := q + |cs[0].data|;
      PlaceHolds(Blit(mem, q, cs[0].data), e, cs[1..]);
    }
  }

  predicate ZeroFrom(mem: seq<byte>, p: nat) {
    forall i :: p <= i < |mem| ==> mem[i] == 0
  }

  /** On an area that is zero from `p` on, clearing the padding makes no difference. */
  lemma {:induction false} ZeroPaddingIsFree(mem: seq<byte>, p: nat, cs: seq<Chunk>)
    requires End(p, cs) <= |mem| && ZeroFrom(mem, p)
    ensures PlaceZeroed(mem, p, cs) == Place(mem, p, cs)
    decreases |cs|
  {
    if cs != [] {
      var m, e := ZeroPaddingStep(mem, p, cs);
      ZeroPaddingIsFree(m, e, cs[1..]);
    }
  }

  lemma ZeroPaddingStep(mem: seq<byte>, p: nat, cs: seq<Chunk>) returns (m: seq<byte>, e: nat)
    requires cs != [] && End(p, cs) <= |mem| && ZeroFrom(mem, p)
    ensures End(p, cs) == End(e, cs[1..]) <= |m| && ZeroFrom(m, e)
    ensures PlaceZeroed(mem, p, cs) == PlaceZeroed(m, e, cs[1..])
    ensures Place(mem, p, cs) == Place(m, e, cs[1..])
  {
    var q := AlignUp(p, cs[0].al);
    e := q + |cs[0].data|;
    m := Blit(mem, q, cs[0].data);
    assert Blit(mem, p, Zeros(q - p) + cs[0].data) == m;
  }

  /** A later change behind a written area leaves what was written. */
  lemma WrittenStays(mem: seq<byte>, p: nat, pad: seq<byte>, data: seq<byte>, r: seq<byte>, n: nat)
    requires p + |pad| + |data| <= n <= |mem|
    requires SameOutside(Blit(mem, p, pad + data), r, p + |pad| + |data|, n)
    ensures r[p + |pad|..p + |pad| + |data|] == data && SameOutside(mem, r, p, n)
  {
    var m, q := Blit(mem, p, pad + data), p + |pad|;
    forall i | 0 <= i < |data| ensures r[q + i] == data[i] {
      assert m[q + i] == (pad + data)[|pad| + i];
    }
  }

  lemma HoldsFirst(r: seq<byte>, p: nat, cs: seq<Chunk>, q: nat, e: nat)
    requires cs != [] && q == AlignUp(p, cs[0].al) && e == q + |cs[0].data| <= |r|
    requires r[q..e] == cs[0].data && Holds(r, e, cs[1..])
    ensures Holds(r, p, cs)
  {
  }

  lemma PlaceZeroedStep(mem: seq<byte>, p: nat, cs: seq<Chunk>) returns (q: nat, e: nat, m: seq<byte>)
    requires cs != [] && End(p, cs) <= |mem|
    ensures p <= q == AlignUp(p, cs[0].al) && e == q + |cs[0].data| <= End(e, cs[1..]) == End(p, cs)
    ensures m == Blit(mem, p, Zeros(q - p) + cs[0].data) && PlaceZeroed(mem, p, cs) == PlaceZeroed(m, e, cs[1..])
  {
    hide AlignUp, Blit, Zeros;
    q := AlignUp(p, cs[0].al);
    e := q + |cs[0].data|;
    m := Blit(mem, p, Zeros(q - p) + cs[0].data);
  }

  lemma {:induction false} PlaceZeroedHolds(mem: seq<byte>, p: nat, cs: seq<Chunk>)
    requires End(p, cs) <= |mem|
    ensures Holds(PlaceZeroed(mem, p, cs), p, cs) && SameOutside(mem, PlaceZeroed(mem, p, cs), p, End(p, cs))
    decreases |cs|
  {
    if cs != [] {
      hide AlignUp, Blit, SameOutside, Zeros, Holds, PlaceZeroed, End;
      var q, e, m := PlaceZeroedStep(mem, p, cs);
      PlaceZeroedHolds(m, e, cs[1..]);
      var r := PlaceZeroed(m, e, cs[1..]);
      WrittenStays(mem, p, Zeros(q - p), cs[0].data, r, End(p, cs));
      HoldsFirst(r, p, cs, q, e);
    }
  }
}
