/** The stream classes of CtrlrFx/BinStream.h, proved against the values of module BinStream. */
module StreamObjects {
  import opened Layout
  import opened HostBytes
  import opened Buffers
  import opened BufCodec
  import opened Streams = BinStream

  /** Swaps the bytes of a copy of the object when the stream is set to. */
  method SwapIf(swap: bool, v: seq<byte>) returns (r: seq<byte>)
    ensures r == if swap then Reverse(v) else v
  {
    r := v;
    if swap {
      var pv := new byte[|v|](i requires 0 <= i < |v| => v[i]);
      assert pv[..] == v;
      SwapBytes(pv);
      r := pv[..];
    }
  }

  class OutBinStream {
    const buf: BinStreamBuf
    const cfg: Config
    var state: IoState

    ghost predicate Valid()
      reads this, buf
    {
      buf.Valid()
    }

    ghost function View(): Stream
      requires Valid()
      reads this, buf, buf.mem
    {
      Stream(buf.PutArea(), state)
    }

    constructor (buf: BinStreamBuf, cfg: Config)
      requires buf.Valid()
      ensures this.buf == buf && this.cfg == cfg && Valid() && View() == Stream(buf.PutArea(), GOOD)
    {
      this.buf := buf;
      this.cfg := cfg;
      state := GOOD;
    }

    method Write(data: seq<byte>)
      requires Valid()
      modifies this`state, buf`pnext, buf.mem
      ensures Valid() && View() == Streams.Write(old(View()), data)
    {
      state := GOOD;
      var m := buf.Xsputn(data);
      if m < |data| {
        state := IoState(false, true);
      }
    }

    method Put(octet: byte)
      requires Valid()
      modifies this`state, buf`pnext, buf.mem
      ensures Valid() && View() == PutByte(old(View()), octet)
    {
      state := GOOD;
      var c := buf.Sputc(octet);
      if c < 0 {
        state := IoState(false, true);
      }
    }

    method InsertWord(v: Value)
      requires Valid()
      modifies this`state, buf`pnext, buf.mem
      ensures Valid() && View() == Streams.InsertWord(cfg, old(View()), v)
    {
      if cfg.align {
        buf.Palign(|v|);
      }
      var bytes := SwapIf(cfg.swap, v);
      Write(bytes);
    }

    method Insert(i: Item)
      requires Valid()
      modifies this`state, buf`pnext, buf.mem
      ensures Valid() && View() == Streams.Insert(cfg, old(View()), i)
    {
      match i
      case Bool(b) => Put(if b then 1 else 0);
      case Byte(octet) => Put(octet);
      case Word(v) => InsertWord(v);
      case Raw(v) => Write(v);
      case Block(data) =>
        InsertWord(U16Bytes(cfg.host, |data| % 0x1_0000));
        Write(data);
    }
  }

  class InBinStream {
    const buf: BinStreamBuf
    const cfg: Config
    var state: IoState

    ghost predicate Valid()
      reads this, buf
    {
      buf.Valid()
    }

    ghost function View(): Stream
      requires Valid()
      reads this, buf, buf.mem
    {
      Stream(buf.GetArea(), state)
    }

    constructor (buf: BinStreamBuf, cfg: Config)
      requires buf.Valid()
      ensures this.buf == buf && this.cfg == cfg && Valid() && View() == Stream(buf.GetArea(), GOOD)
    {
      this.buf := buf;
      this.cfg := cfg;
      state := GOOD;
    }

    method Get() returns (c: int)
      requires Valid()
      modifies this`state, buf`gnext
      ensures Valid() && (View(), c) == GetByte(old(View()))
    {
      state := GOOD;
      c := buf.Sbumpc();
      if c < 0 {
        state := IoState(true, true);
      }
    }

    method Read(n: nat) returns (data: seq<byte>)
      requires Valid()
      modifies this`state, buf`gnext
      ensures Valid() && (View(), data) == Streams.Read(old(View()), n)
    {
      state := GOOD;
      data := buf.Xsgetn(n);
      if |data| < n {
        state := IoState(true, true);
      }
    }

    method ExtractWord(was: Value) returns (v: Value)
      requires Valid()
      modifies this`state, buf`gnext
      ensures Valid() && (View(), v) == Streams.ExtractWord(cfg, old(View()), was)
    {
      if cfg.align {
        buf.Galign(|was|);
      }
      var data := Read(|was|);
      v := SwapIf(cfg.swap, data + was[|data|..]);
    }

    method ExtractBool() returns (b: bool)
      requires Valid()
      modifies this`state, buf`gnext
      ensures Valid() && (View(), Bool(b)) == Extract(cfg, old(View()), Bool(false), 0)
    {
      var c := Get();
      b := c > 0;
    }

    /** At the end of the stream the -1 becomes a byte of 255. */
    method ExtractByte() returns (octet: byte)
      requires Valid()
      modifies this`state, buf`gnext
      ensures Valid() && (View(), Byte(octet)) == Extract(cfg, old(View()), Byte(0), 0)
    {
      var c := Get();
      octet := (c % 256) as byte;
    }

    /** A floating-point value over what the variable held, neither aligned nor swapped. */
    method ExtractRaw(was: Value) returns (v: Value)
      requires Valid()
      modifies this`state, buf`gnext
      ensures Valid() && (View(), v) == ReadOver(old(View()), was)
    {
      var data := Read(|was|);
      v := data + was[|data|..];
    }

    /** Extracts a byte buffer into `target`, whose capacity the length must not exceed. `len0` is
        what the uninitialised length holds before. */
    method ExtractBlock(target: Buffer<byte>, len0: u16)
      requires Valid() && target.Valid() && target.arr != buf.mem
      requires U16Of(cfg.host, Streams.ExtractWord(cfg, View(), U16Bytes(cfg.host, len0)).1) <= target.arr.Length
      modifies this`state, buf`gnext, target`lim, target.arr
      ensures var (s, i) := Extract(cfg, old(View()), Block([]), len0);
              && Valid() && View() == s && i.Block? && |i.data| <= target.arr.Length
              && target.arr[..] == Blit(old(target.arr[..]), 0, i.data)
              && target.lim == U16Of(cfg.host, Streams.ExtractWord(cfg, old(View()), U16Bytes(cfg.host, len0)).1)
    {
      var w := ExtractWord(U16Bytes(cfg.host, len0));
      var len := U16Of(cfg.host, w);
      var data := Read(len);
      target.CopyIn(0, data);
      target.lim := len;
    }
  }
}
