/** The search for the "CX" that opens a packet: the loop of get_pkt_hdr in
    src/DistObj/DistObjSrvr.cpp over a channel that returns what is asked for while bytes
    remain. */
module PacketHeader {
  import opened Layout

  const C: byte := 67
  const X: byte := 88

  /** One pass of the loop reads into `magic` from `nx` on. `m0` and `m1` are what `magic` holds
      before; at the start that is anything. The result is how many bytes were consumed and
      whether a header was accepted. */
  function Scan(inp: seq<byte>, m0: byte, m1: byte, nx: nat): (r: (nat, bool))
    ensures r.0 <= |inp| && (inp != [] ==> r.0 > 0)
    decreases |inp|
  {
    if inp == [] then (0, false)
    else
      var (a, b, c) := Pass(inp, m0, m1, nx);
      if b == C then var (n, found) := Scan(inp[c..], C, 0, 1); (c + n, found)
      else if a == C && b == X then (c, true)
      else var (n, found) := Scan(inp[c..], a, b, nx); (c + n, found)
  }

  /** `magic` after one read, and the number of bytes read. */
  function Pass(inp: seq<byte>, m0: byte, m1: byte, nx: nat): (r: (byte, byte, nat))
    requires inp != []
    ensures 0 < r.2 <= |inp|
  {
    if nx != 0 then (m0, inp[0], 1)
    else if |inp| >= 2 then (inp[0], inp[1], 2)
    else (inp[0], m1, 1)
  }

  predicate HeaderAt(inp: seq<byte>, k: nat) {
    k + 1 < |inp| && inp[k] == C && inp[k + 1] == X
  }

  predicate FirstHeader(inp: seq<byte>, k: nat) {
    HeaderAt(inp, k) && forall j :: 0 <= j < k ==> !HeaderAt(inp, j)
  }

  /** Index of the first 'X', or the length. */
  function FirstX(inp: seq<byte>): (x: nat)
    ensures x <= |inp| && (x < |inp| ==> inp[x] == X)
    ensures forall i :: 0 <= i < x ==> inp[i] != X
    decreases |inp|
  {
    if inp == [] || inp[0] == X then 0 else 1 + FirstX(inp[1..])
  }

  /** Once a 'C' has been kept, the scan takes the next 'X', whatever is in between. */
  lemma {:induction false} LateScan(inp: seq<byte>, m1: byte)
    ensures Scan(inp, C, m1, 1) == if FirstX(inp) < |inp| then (FirstX(inp) + 1, true) else (|inp|, false)
    decreases |inp|
  {
    if inp != [] {
      LateScan(inp[1..], if inp[0] == C then 0 else inp[0]);
    }
  }

  /** A 'C' at an odd place before the header, and an 'X' between it and the header. */
  ghost predicate Misled(inp: seq<byte>, k: nat) {
    exists j, x :: 0 <= j < x < k && x < |inp| && j % 2 == 1 && inp[j] == C && inp[x] == X
  }

  /** On a channel that holds "CX" the scan always accepts a header, never reads beyond the end
      of the first "CX", and stops exactly there if and only if it is not misled before. */
  lemma {:induction false} ScanStops(inp: seq<byte>, m0: byte, m1: byte, k: nat)
    requires FirstHeader(inp, k)
    ensures var (n, found) := Scan(inp, m0, m1, 0);
            found && n <= k + 2 && (n == k + 2 <==> !Misled(inp, k))
    decreases |inp|
  {
    if k == 0 {
      assert !Misled(inp, k);
    } else if inp[1] == C {
      ScanKeepsC(inp, m0, m1, k);
    } else {
      var tail := inp[2..];
      assert forall j :: 0 <= j < k - 2 ==> HeaderAt(tail, j) == HeaderAt(inp, j + 2);
      assert !HeaderAt(inp, 0);
      ScanStops(tail, inp[0], inp[1], k - 2);
      MisledTail(inp, k);
    }
  }

  lemma MisledTail(inp: seq<byte>, k: nat)
    requires 2 <= k <= |inp| && inp[1] != C
    ensures Misled(inp, k) <==> Misled(inp[2..], k - 2)
  {
    var tail := inp[2..];
    if Misled(inp, k) {
      var j, x :| 0 <= j < x < k && x < |inp| && j % 2 == 1 && inp[j] == C && inp[x] == X;
      assert tail[j - 2] == C && tail[x - 2] == X && (j - 2) % 2 == 1;
    }
    if Misled(tail, k - 2) {
      var j, x :| 0 <= j < x < k - 2 && x < |tail| && j % 2 == 1 && tail[j] == C && tail[x] == X;
      assert inp[j + 2] == C && inp[x + 2] == X && (j + 2) % 2 == 1;
    }
  }

  lemma ScanKeepsC(inp: seq<byte>, m0: byte, m1: byte, k: nat)
    requires FirstHeader(inp, k) && k > 0 && inp[1] == C
    ensures var (n, found) := Scan(inp, m0, m1, 0);
            found && n <= k + 2 && (n == k + 2 <==> !Misled(inp, k))
  {
    var tail := inp[2..];
    LateScan(tail, 0);
    var x := FirstX(tail);
    assert tail[k - 1] == X;
    if x < k - 1 {
      assert 0 <= 1 < x + 2 < k && inp[1] == C && inp[x + 2] == X;
    }
    assert forall y :: 2 <= y < k ==> inp[y] == tail[y - 2];
  }

  /** Junk of any length without a 'C' is skipped and the scan stops right behind the header. */
  lemma JunkWithoutCIsSkipped(inp: seq<byte>, m0: byte, m1: byte, k: nat)
    requires FirstHeader(inp, k) && forall j :: 0 <= j < k ==> inp[j] != C
    ensures Scan(inp, m0, m1, 0) == (k + 2, true)
  {
    ScanStops(inp, m0, m1, k);
  }

  lemma RequestAfterJunk(junk: seq<byte>, rest: seq<byte>, m0: byte, m1: byte)
    requires C !in junk
    ensures var inp := junk + ([C, X] + rest);
            Scan(inp, m0, m1, 0) == (|junk| + 2, true) && inp[|junk| + 2..] == rest
  {
    var inp := junk + ([C, X] + rest);
    assert forall j :: 0 <= j < |junk| ==> inp[j] == junk[j];
    assert HeaderAt(inp, |junk|);
    JunkWithoutCIsSkipped(inp, m0, m1, |junk|);
  }

  // ----- What is accepted -----

  /** "CX" at an even place, where two bytes are read together. */
  ghost predicate EvenHeader(inp: seq<byte>) {
    exists k :: 0 <= k < |inp| && k % 2 == 0 && HeaderAt(inp, k)
  }

  /** A 'C' at an odd place, which is kept, and any 'X' behind it. */
  ghost predicate KeptHeader(inp: seq<byte>) { Misled(inp, |inp|) }

  /** The last read brings a single 'C', and the byte behind it in `magic` is an old 'X': that of
      the read before, or what was there at the start. */
  predicate StaleHeader(inp: seq<byte>, m1: byte) {
    && |inp| % 2 == 1 && inp[|inp| - 1] == C
    && (if |inp| == 1 then m1 else inp[|inp| - 2]) == X
  }

  /** Exactly which channels make the scan accept a header, whatever they contain. */
  lemma {:induction false} AcceptedIff(inp: seq<byte>, m0: byte, m1: byte)
    ensures Scan(inp, m0, m1, 0).1 <==> EvenHeader(inp) || KeptHeader(inp) || StaleHeader(inp, m1)
    decreases |inp|
  {
    if |inp| <= 1 {
      assert inp != [] ==> Scan(inp[1..], m0, m1, 0) == (0, false);
    } else if inp[1] == C {
      LateScan(inp[2..], 0);
      OnlyKept(inp);
    } else if inp[0] == C && inp[1] == X {
      assert HeaderAt(inp, 0);
    } else {
      AcceptedIff(inp[2..], inp[0], inp[1]);
      AcceptedTail(inp);
    }
  }

  /** When the first read keeps a 'C', what counts is an 'X' behind it. */
  lemma OnlyKept(inp: seq<byte>)
    requires |inp| >= 2 && inp[1] == C
    ensures FirstX(inp[2..]) < |inp| - 2 <==> EvenHeader(inp) || KeptHeader(inp) || StaleHeader(inp, 0)
    ensures forall m :: StaleHeader(inp, m) == StaleHeader(inp, 0)
  {
    var tail := inp[2..];
    var x := FirstX(tail);
    if x < |tail| {
      assert inp[1] == C && inp[x + 2] == X;
    } else {
      assert forall i :: 2 <= i < |inp| ==> inp[i] == tail[i - 2] != X;
    }
  }

  /** A first read that decides nothing leaves the question to the rest of the channel. */
  lemma AcceptedTail(inp: seq<byte>)
    requires |inp| >= 2 && inp[1] != C && !HeaderAt(inp, 0)
    ensures EvenHeader(inp) <==> EvenHeader(inp[2..])
    ensures KeptHeader(inp) <==> KeptHeader(inp[2..])
    ensures forall m :: StaleHeader(inp, m) <==> StaleHeader(inp[2..], inp[1])
  {
    EvenTail(inp);
    MisledTail(inp, |inp|);
  }

  lemma EvenTail(inp: seq<byte>)
    requires |inp| >= 2 && !HeaderAt(inp, 0)
    ensures EvenHeader(inp) <==> EvenHeader(inp[2..])
  {
    var tail := inp[2..];
    assert forall k: nat :: HeaderAt(tail, k) == HeaderAt(inp, k + 2);
    if EvenHeader(inp) {
      var k :| 0 <= k < |inp| && k % 2 == 0 && HeaderAt(inp, k);
      assert HeaderAt(tail, k - 2);
    }
  }

  /** A channel without "CX" passes for one with a header exactly when a kept 'C' or an old 'X'
      completes it. */
  lemma FalseHeaderIff(inp: seq<byte>, m0: byte, m1: byte)
    requires forall k :: !HeaderAt(inp, k)
    ensures Scan(inp, m0, m1, 0).1 <==> KeptHeader(inp) || StaleHeader(inp, m1)
  {
    AcceptedIff(inp, m0, m1);
  }

  /** No 'C', no header: such a channel is used up. */
  lemma {:induction false} NothingToFind(inp: seq<byte>, m0: byte, m1: byte)
    requires C !in inp
    ensures Scan(inp, m0, m1, 0) == (|inp|, false)
    decreases |inp|
  {
    if inp != [] {
      var (a, b, c) := Pass(inp, m0, m1, 0);
      assert a == inp[0];
      if c == 2 {
        NothingToFind(inp[2..], a, b);
      } else {
        assert inp[1..] == [];
      }
    }
  }

  /** An instance of a kept 'C': "C", junk, "X" passes for a header. */
  lemma JunkPassesForHeader(a: byte, b: byte, m0: byte, m1: byte)
    requires b != C && b != X
    ensures Scan([a, C, b, X], m0, m1, 0) == (4, true)
    ensures forall k :: !HeaderAt([a, C, b, X], k)
  {
    LateScan([b, X], 0);
    assert [b, X][1..] == [X];
    assert [a, C, b, X][2..] == [b, X];
  }

  /** Instances of an old 'X': a trailing 'C' behind an 'X' that was read, or with an 'X' in the
      uninitialised bytes; with anything else there the single 'C' is not enough. */
  lemma OldXPassesForHeader(a: byte, m0: byte, m1: byte)
    ensures a != C ==> Scan([a, X, C], m0, m1, 0) == (3, true) && forall k :: !HeaderAt([a, X, C], k)
    ensures Scan([C], m0, m1, 0) == (1, m1 == X) && forall k :: !HeaderAt([C], k)
  {
    assert [C][1..] == [];
    assert [a, X, C][2..] == [C];
  }
}
