/** The positioned buffer of CtrlrFx/Buffer.h: first as a value with its operations, then as
    the class that updates its memory and position in place. */
module Buffers {
  import opened Layout

  /** State of a buffer. The capacity is the length of `mem`. */
  datatype Buf<T> = Buf(mem: seq<T>, pos: nat, lim: nat, mark: nat) {

    /** The position may be beyond the limit, never beyond the memory. */
    predicate Valid() {
      pos <= |mem| && lim <= |mem| && mark <= |mem|
    }

    /** Moves to the next multiple of `n`, unless that is at or after the end of the memory. */
    function Align(n: Pos): Buf<T> {
      var q := AlignUp(pos, n);
      if pos < q < |mem| then this.(pos := q) else this
    }

    /** Stores the whole array or nothing; the second result is the number stored. */
    function PutBlock(data: seq<T>): (Buf<T>, nat)
      requires Valid()
    {
      if pos + |data| > lim then (this, 0)
      else (this.(mem := Blit(mem, pos, data), pos := pos + |data|), |data|)
    }

    /** Takes `n` items or none. */
    function GetBlock(n: nat): (Buf<T>, seq<T>)
      requires Valid()
    {
      if pos + n > lim then (this, []) else (this.(pos := pos + n), mem[pos..pos + n])
    }

    function Clear(): Buf<T> { this.(pos := 0, mark := 0, lim := |mem|) }

    function ClearTo(sz: nat): Buf<T> {
      this.(pos := 0, mark := 0, lim := if sz > |mem| then |mem| else sz)
    }

    function Flip(): Buf<T> { this.(lim := pos, pos := 0, mark := 0) }

    function Rewind(): Buf<T> { this.(pos := 0, mark := 0) }

    /** Takes over position, mark, limit and the items below the limit of `rhs`. */
    function DeepCopy(rhs: Buf<T>): (Buf<T>, bool)
      requires Valid() && rhs.Valid()
    {
      if rhs.lim > |mem| then (this, false)
      else (Buf(Blit(mem, 0, rhs.mem[..rhs.lim]), rhs.pos, rhs.lim, rhs.mark), true)
    }
  }

  class Buffer<T(0)> {
    var arr: array<T>
    var pos: nat
    var lim: nat
    var mark: nat

    ghost function View(): Buf<T>
      reads this, arr
    {
      Buf(arr[..], pos, lim, mark)
    }

    ghost predicate Valid()
      reads this, arr
    {
      View().Valid()
    }

    constructor (cap: nat)
      ensures Valid() && fresh(arr)
      ensures arr.Length == cap && pos == mark == 0 && lim == cap
    {
      arr := new T[cap];
      pos, mark, lim := 0, 0, cap;
    }

    method Align(n: Pos)
      requires Valid()
      modifies this`pos
      ensures Valid() && View() == old(View()).Align(n)
      ensures pos == (var q := AlignUp(old(pos), n); if q < arr.Length then q else old(pos))
    {
      var rem := pos % n;
      if rem != 0 {
        var p := pos + (n - rem);
        if p < arr.Length {
          pos := p;
        }
      }
    }

    /** Copies `src` into the memory item by item, starting at `at`. */
    method CopyIn(at: nat, src: seq<T>)
      requires at + |src| <= arr.Length
      modifies arr
      ensures arr[..] == Blit(old(arr[..]), at, src)
    {
      var i := 0;
      while i < |src|
        invariant 0 <= i <= |src|
        invariant arr[..at] == old(arr[..at])
        invariant arr[at..at + i] == src[..i]
        invariant arr[at + i..] == old(arr[at + i..])
      {
        arr[at + i] := src[i];
        i := i + 1;
      }
      assert arr[..] == arr[..at] + arr[at..at + i] + arr[at + i..];
    }

    method PutBlock(data: seq<T>) returns (n: nat)
      requires Valid()
      modifies this`pos, arr
      ensures Valid() && (View(), n) == old(View()).PutBlock(data)
      ensures if old(pos) + |data| <= lim then
                n == |data| && pos == old(pos) + n && arr[..] == Blit(old(arr[..]), old(pos), data)
              else n == 0 && pos == old(pos) && arr[..] == old(arr[..])
    {
      if pos + |data| > lim {
        return 0;
      }
      CopyIn(pos, data);
      pos := pos + |data|;
      n := |data|;
    }

    method GetBlock(n: nat) returns (data: seq<T>)
      requires Valid()
      modifies this`pos
      ensures Valid() && (View(), data) == old(View()).GetBlock(n)
      ensures if old(pos) + n <= lim then data == arr[old(pos)..pos] && pos == old(pos) + n
              else data == [] && pos == old(pos)
    {
      if pos + n > lim {
        return [];
      }
      data := arr[pos..pos + n];
      pos := pos + n;
    }

    method Clear()
      modifies this`pos, this`lim, this`mark
      ensures Valid() && View() == old(View()).Clear()
      ensures pos == mark == 0 && lim == arr.Length && arr[..] == old(arr[..])
    {
      pos, mark := 0, 0;
      lim := arr.Length;
    }

    method ClearTo(sz: nat)
      modifies this`pos, this`lim, this`mark
      ensures Valid() && View() == old(View()).ClearTo(sz)
      ensures pos == mark == 0 && lim == (if sz <= arr.Length then sz else arr.Length) && arr[..] == old(arr[..])
    {
      var s := sz;
      if s > arr.Length {
        s := arr.Length;
      }
      pos, mark := 0, 0;
      lim := s;
    }

    method Flip()
      requires Valid()
      modifies this`pos, this`lim, this`mark
      ensures Valid() && View() == old(View()).Flip()
      ensures lim == old(pos) && pos == mark == 0 && arr[..] == old(arr[..])
    {
      lim := pos;
      pos, mark := 0, 0;
    }

    method DeepCopy(rhs: Buffer<T>) returns (ok: bool)
      requires Valid() && rhs.Valid()
      modifies this`pos, this`lim, this`mark, arr
      ensures (View(), ok) == old(View()).DeepCopy(old(rhs.View()))
      ensures ok <==> old(rhs.lim) <= arr.Length
      ensures ok ==> pos == old(rhs.pos) && lim == old(rhs.lim) && mark == old(rhs.mark)
                     && arr[..] == old(rhs.arr[..rhs.lim]) + old(arr[..])[old(rhs.lim)..]
      ensures !ok ==> View() == old(View())
    {
      if rhs.lim > arr.Length {
        return false;
      }
      pos := rhs.pos;
      mark := rhs.mark;
      lim := rhs.lim;
      CopyIn(0, rhs.arr[..rhs.lim]);
      ok := true;
    }
  }
}
