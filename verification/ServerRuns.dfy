/** Whole runs of the server loop of src/DistObj/DistObjSrvr.cpp: until the channel ends, and
    until the server is told to quit. */
module ServerRuns {
  import opened Layout
  import opened HostBytes
  import opened BufCodec
  import opened PacketHeader
  import opened DistObj

  /** Everything `run` does until the channel ends. `garbage(k)` is what the uninitialised
      bytes of get_pkt_hdr hold in round `k`. */
  function ServeAll<S>(host: Order, dispatch: Dispatch<S>, srv: Server<S>, inp: seq<byte>,
          garbage: nat -> (byte, byte), k: nat): (r: (Server<S>, seq<byte>))
    requires srv.Valid()
    ensures r.0.Valid()
    decreases |inp|
  {
    match ServeNext(host, dispatch, srv, inp, garbage(k).0, garbage(k).1)
    case None => (srv, [])
    case Some(r) =>
      var (srv', out) := ServeAll(host, dispatch, r.srv, r.rest, garbage, k + 1);
      (srv', r.out + out)
  }

  // ----- Many packets -----

  /** A command packet on the channel, with junk in front of it. */
  datatype Sent = Sent(junk: seq<byte>, cmd: ValidCodec, req: Request)

  /** The packets one after the other, and what arrives behind them. */
  function StreamOf(host: Order, pkts: seq<Sent>, noise: seq<byte>): seq<byte> {
    if pkts == [] then noise
    else pkts[0].junk + (SendBytes(host, MSG_TYPE_CMD, pkts[0].cmd.buf.Flip()) + StreamOf(host, pkts[1..], noise))
  }

  /** Every packet carries its request, fits the server's buffer, and has a handler that answers
      it in the state its predecessors leave. */
  ghost predicate Served<S(!new)>(host: Order, dispatch: Dispatch<S>, objs: S, cmdCap: nat, rspCap: nat,
          pkts: seq<Sent>, answers: seq<Answer<S>>) {
    && |pkts| == |answers|
    && (pkts != [] ==>
          var p := pkts[0];
          && C !in p.junk && Wrote(p.cmd, CmdValues(host, p.req)) && p.cmd.buf.pos <= cmdCap
             && p.cmd.buf.pos < 0x1_0000_0000
          && Answers(dispatch, objs, p.req, rspCap, answers[0])
          && Served(host, dispatch, answers[0].objs, cmdCap, rspCap, pkts[1..], answers[1..]))
  }

  /** The responses to the packets, in order and with nothing around them. */
  ghost predicate AreResponses<S>(host: Order, out: seq<byte>, pkts: seq<Sent>, answers: seq<Answer<S>>)
    requires |pkts| == |answers|
  {
    if pkts == [] then out == []
    else
      var n := 16 + End(0, Chunks(answers[0].outs));
      && n <= |out| && IsResponse(host, out[..n], pkts[0].req.id, answers[0].ret, answers[0].outs)
      && AreResponses(host, out[n..], pkts[1..], answers[1..])
  }

  /** However many packets arrive and whatever C-free junk is between and behind them, `run`
      answers each of them once, in order, and leaves the objects as the handlers do one after
      the other. */
  lemma {:induction false} RunAnswersInOrder<S(!new)>(host: Order, dispatch: Dispatch<S>, srv: Server<S>,
          garbage: nat -> (byte, byte), k: nat, pkts: seq<Sent>, noise: seq<byte>, answers: seq<Answer<S>>)
    requires srv.Valid() && Served(host, dispatch, srv.objs, |srv.cmdBuf.mem|, |srv.rspBuf.mem|, pkts, answers)
    requires C !in noise
    ensures var (srv', out) := ServeAll(host, dispatch, srv, StreamOf(host, pkts, noise), garbage, k);
            && AreResponses(host, out, pkts, answers)
            && srv'.objs == if answers == [] then srv.objs else answers[|answers| - 1].objs
    decreases |pkts|
  {
    hide ServeNext, IsResponse, Answers, SendBytes, Wrote;
    if pkts == [] {
      NoiseNoRound(host, dispatch, srv, noise, garbage(k).0, garbage(k).1);
    } else {
      var p := pkts[0];
      var more := StreamOf(host, pkts[1..], noise);
      var r := RequestServed(host, dispatch, srv, p.junk, p.cmd, more, garbage(k).0, garbage(k).1, p.req, answers[0]);
      RunAnswersInOrder(host, dispatch, r.srv, garbage, k + 1, pkts[1..], noise, answers[1..]);
      var out := ServeAll(host, dispatch, r.srv, r.rest, garbage, k + 1).1;
      FirstResponse(host, r.out, out, pkts, answers);
    }
  }

  lemma NoiseNoRound<S>(host: Order, dispatch: Dispatch<S>, srv: Server<S>, noise: seq<byte>, m0: byte, m1: byte)
    requires srv.Valid() && C !in noise
    ensures ServeNext(host, dispatch, srv, noise, m0, m1).None?
  {
    NothingToFind(noise, m0, m1);
  }

  lemma FirstResponse<S>(host: Order, first: seq<byte>, out: seq<byte>, pkts: seq<Sent>, answers: seq<Answer<S>>)
    requires |pkts| == |answers| && pkts != []
    requires IsResponse(host, first, pkts[0].req.id, answers[0].ret, answers[0].outs)
    requires AreResponses(host, out, pkts[1..], answers[1..])
    ensures AreResponses(host, first + out, pkts, answers)
  {
    var n := 16 + End(0, Chunks(answers[0].outs));
    assert (first + out)[..n] == first && (first + out)[n..] == out;
  }

  // ----- Quitting -----

  /** How a scan ends: with a header, with the channel, or because the server is to quit. */
  datatype ScanEnd = Found | Closed | Quit

  /** The scan with its tests of the quit flag, which stays set once it is. `tests` is how many
      more tests find it clear. The results are the bytes consumed, the end and the tests left. */
  function ScanUntil(inp: seq<byte>, m0: byte, m1: byte, nx: nat, tests: nat): (r: (nat, ScanEnd, nat))
    ensures r.0 <= |inp| && r.2 <= tests
    decreases |inp|
  {
    if inp == [] then (0, Closed, tests)
    else
      var (a, b, c) := Pass(inp, m0, m1, nx);
      if tests == 0 then (c, Quit, 0)
      else if b == C then
        var (n, end, left) := ScanUntil(inp[c..], C, 0, 1, tests - 1);
        (c + n, end, left)
      else if a == C && b == X then (c, Found, tests - 1)
      else
        var (n, end, left) := ScanUntil(inp[c..], a, b, nx, tests - 1);
        (c + n, end, left)
  }

  /** `magic` and `nx` after one read, with a 'C' in the second place moved to the first. */
  function Kept(inp: seq<byte>, m0: byte, m1: byte, nx: nat): (r: (byte, byte, nat, nat))
    requires inp != []
    ensures 0 < r.3 <= |inp|
  {
    var (a, b, c) := Pass(inp, m0, m1, nx);
    if b == C then (C, 0, 1, c) else (a, b, nx, c)
  }

  /** One read of the scan and the test behind it. */
  lemma ScanUntilPass(inp: seq<byte>, m0: byte, m1: byte, nx: nat, tests: nat)
    requires inp != []
    ensures var (a, b, nx', c) := Kept(inp, m0, m1, nx);
            ScanUntil(inp, m0, m1, nx, tests) ==
            if tests == 0 then (c, Quit, 0)
            else if a == C && b == X then (c, Found, tests - 1)
            else
              var (n, end, left) := ScanUntil(inp[c..], a, b, nx', tests - 1);
              (c + n, end, left)
  {
  }

  /** A scan that quits has no test left, and one that finds a header has made one. */
  lemma {:induction false} ScanUntilLeft(inp: seq<byte>, m0: byte, m1: byte, nx: nat, tests: nat)
    ensures var (_, end, left) := ScanUntil(inp, m0, m1, nx, tests);
            (end.Quit? ==> left == 0) && (end.Found? ==> left < tests)
    decreases |inp|
  {
    if inp != [] && tests > 0 {
      var (a, b, nx', c) := Kept(inp, m0, m1, nx);
      ScanUntilPass(inp, m0, m1, nx, tests);
      ScanUntilLeft(inp[c..], a, b, nx', tests - 1);
    }
  }

  /** A scan under way: `c` bytes are consumed, and what is still to be done completes it. */
  ghost predicate Scanning(inp0: seq<byte>, start: (nat, ScanEnd, nat), c: nat, inp: seq<byte>, a: byte, b: byte,
                           nx: nat, tests: nat)
  {
    && c <= |inp0| && inp == inp0[c..]
    && var (n, end, left) := ScanUntil(inp, a, b, nx, tests);
    start == (c + n, end, left)
  }

  lemma ScanningStarts(inp: seq<byte>, m0: byte, m1: byte, tests: nat)
    ensures Scanning(inp, ScanUntil(inp, m0, m1, 0, tests), 0, inp, m0, m1, 0, tests)
  {
  }

  lemma ScanningStep(inp0: seq<byte>, start: (nat, ScanEnd, nat), c: nat, inp: seq<byte>, m0: byte, m1: byte,
                     nx: nat, tests: nat)
    requires Scanning(inp0, start, c, inp, m0, m1, nx, tests)
    ensures inp == [] ==> start == (c, Closed, tests) && inp == inp0[c..]
    ensures inp != [] ==>
              var (a, b, nx', k) := Kept(inp, m0, m1, nx);
              && c + k <= |inp0| && inp[k..] == inp0[c + k..]
              && if tests == 0 then start == (c + k, Quit, 0)
                 else if a == C && b == X then start == (c + k, Found, tests - 1)
                 else Scanning(inp0, start, c + k, inp[k..], a, b, nx', tests - 1)
  {
    if inp != [] {
      hide Kept, ScanUntil;
      ScanUntilPass(inp, m0, m1, nx, tests);
      DropDrop(inp0, c, Kept(inp, m0, m1, nx).3);
    }
  }

  /** Unless it is told to quit it is the scan, and it tests the flag once for each read. */
  lemma {:induction false} ScanUntilIsScan(inp: seq<byte>, m0: byte, m1: byte, nx: nat, tests: nat)
    ensures var (n, end, left) := ScanUntil(inp, m0, m1, nx, tests); var (m, found) := Scan(inp, m0, m1, nx);
            && (end.Found? ==> found && n == m && left + n >= tests)
            && (end.Closed? ==> !found)
            && (end.Quit? ==> tests < n)
    decreases |inp|
  {
    if inp != [] && tests > 0 {
      var (a, b, c) := Pass(inp, m0, m1, nx);
      if b == C {
        ScanUntilIsScan(inp[c..], C, 0, 1, tests - 1);
      } else if !(a == C && b == X) {
        ScanUntilIsScan(inp[c..], a, b, nx, tests - 1);
      }
    }
  }

  /** One turn of the loop: it stops, at the latest when the flag is seen, or serves a packet. */
  datatype Turn<S> = Stop(srv: Server<S>) | Go(round: Round<S>, left: nat)

  function TakeTurn<S>(host: Order, dispatch: Dispatch<S>, srv: Server<S>, inp: seq<byte>, m0: byte, m1: byte,
                       tests: nat): (r: Turn<S>)
    requires srv.Valid()
    ensures r.Stop? ==> r.srv.Valid() && r.srv.objs == srv.objs
    ensures r.Go? ==> r.round.srv.Valid() && |r.round.rest| < |inp|
  {
    if tests == 0 then Stop(srv)
    else
      var (n, end, left) := ScanUntil(inp, m0, m1, 0, tests - 1);
      if end != Found then Stop(srv)
      else
        assert n > 0 by { ScanUntilIsScan(inp, m0, m1, 0, tests - 1); }
        var (hdr, inp1) := LoadHdr(srv.pktHdr, inp[n..]);
        if left == 0 then Stop(srv.(pktHdr := hdr))
        else Go(ServePayload(host, dispatch, srv.(pktHdr := hdr), inp1), left - 1)
  }

  /** A turn that serves a packet is a round, and tests the flag three times at least and at most
      three times for each byte; a turn with tests to spare stops only with the channel. */
  lemma TurnIsRound<S>(host: Order, dispatch: Dispatch<S>, srv: Server<S>, inp: seq<byte>, m0: byte, m1: byte,
          tests: nat)
    requires srv.Valid()
    ensures var t := TakeTurn(host, dispatch, srv, inp, m0, m1, tests);
            var r := ServeNext(host, dispatch, srv, inp, m0, m1);
            && (t.Go? ==> r == Some(t.round) && t.left + 3 <= tests <= t.left + 3 * (|inp| - |t.round.rest|))
            && (t.Stop? && tests >= |inp| + 3 ==> r.None? && t.srv == srv)
  {
    hide ServePayload, ScanUntil, Scan;
    if tests > 0 {
      ScanUntilIsScan(inp, m0, m1, 0, tests - 1);
      ScanUntilLeft(inp, m0, m1, 0, tests - 1);
    }
  }

  /** Everything `run` does until the channel ends or the flag is seen. */
  function ServeUntil<S>(host: Order, dispatch: Dispatch<S>, srv: Server<S>, inp: seq<byte>,
          garbage: nat -> (byte, byte),
                         k: nat, tests: nat): (r: (Server<S>, seq<byte>))
    requires srv.Valid()
    ensures r.0.Valid()
    decreases |inp|
  {
    match TakeTurn(host, dispatch, srv, inp, garbage(k).0, garbage(k).1, tests)
    case Stop(srv') => (srv', [])
    case Go(r, left) =>
      var (srv', out) := ServeUntil(host, dispatch, r.srv, r.rest, garbage, k + 1, left);
      (srv', r.out + out)
  }

  /** At most `j` rounds. */
  function ServeSome<S>(host: Order, dispatch: Dispatch<S>, srv: Server<S>, inp: seq<byte>,
          garbage: nat -> (byte, byte),
                        k: nat, j: nat): (r: (Server<S>, seq<byte>))
    requires srv.Valid()
    decreases j
  {
    if j == 0 then (srv, [])
    else
      match ServeNext(host, dispatch, srv, inp, garbage(k).0, garbage(k).1)
      case None => (srv, [])
      case Some(r) =>
        var (srv', out) := ServeSome(host, dispatch, r.srv, r.rest, garbage, k + 1, j - 1);
        (srv', r.out + out)
  }

  /** Whenever the flag is set, the server stops between two packets: what it has sent and the
      state of its objects are those of a number of whole rounds, none of which began with the
      flag set. */
  lemma {:induction false} QuitsBetweenPackets<S>(host: Order, dispatch: Dispatch<S>, srv: Server<S>, inp: seq<byte>,
          garbage: nat -> (byte, byte), k: nat, tests: nat) returns (j: nat)
    requires srv.Valid()
    ensures var (srv1, out1) := ServeUntil(host, dispatch, srv, inp, garbage, k, tests);
            var (srv2, out2) := ServeSome(host, dispatch, srv, inp, garbage, k, j);
            out1 == out2 && srv1.objs == srv2.objs && 3 * j <= tests
    decreases |inp|
  {
    hide TakeTurn, ServeNext;
    TurnIsRound(host, dispatch, srv, inp, garbage(k).0, garbage(k).1, tests);
    match TakeTurn(host, dispatch, srv, inp, garbage(k).0, garbage(k).1, tests)
    case Stop(_) => j := 0;
    case Go(r, left) =>
      var i := QuitsBetweenPackets(host, dispatch, r.srv, r.rest, garbage, k + 1, left);
      j := i + 1;
  }

  /** And what it has sent is the beginning of what it would have sent. */
  lemma {:induction false} SomeIsPrefix<S>(host: Order, dispatch: Dispatch<S>, srv: Server<S>, inp: seq<byte>,
          garbage: nat -> (byte, byte), k: nat, j: nat)
    requires srv.Valid()
    ensures ServeSome(host, dispatch, srv, inp, garbage, k, j).1 <= ServeAll(host, dispatch, srv, inp, garbage, k).1
    decreases j
  {
    hide ServeNext;
    var next := ServeNext(host, dispatch, srv, inp, garbage(k).0, garbage(k).1);
    if j > 0 && next.Some? {
      var r := next.value;
      SomeIsPrefix(host, dispatch, r.srv, r.rest, garbage, k + 1, j - 1);
    }
  }

  /** As long as the flag stays clear the server serves everything. */
  lemma {:induction false} PatientServer<S>(host: Order, dispatch: Dispatch<S>, srv: Server<S>, inp: seq<byte>,
          garbage: nat -> (byte, byte), k: nat, tests: nat)
    requires srv.Valid() && tests >= 3 * |inp| + 3
    ensures ServeUntil(host, dispatch, srv, inp, garbage, k, tests) == ServeAll(host, dispatch, srv, inp, garbage, k)
    decreases |inp|
  {
    hide TakeTurn, ServeNext;
    TurnIsRound(host, dispatch, srv, inp, garbage(k).0, garbage(k).1, tests);
    match TakeTurn(host, dispatch, srv, inp, garbage(k).0, garbage(k).1, tests)
    case Stop(_) =>
    case Go(r, left) => PatientServer(host, dispatch, r.srv, r.rest, garbage, k + 1, left);
  }

  // ----- The progress of the loop -----

  /** The state after `k` turns: what is still to be done completes what was sent. */
  ghost predicate Progress<S>(all: (Server<S>, seq<byte>), left: (Server<S>, seq<byte>), sent: seq<byte>) {
    all == (left.0, sent + left.1)
  }

  lemma ProgressStart<S>(all: (Server<S>, seq<byte>))
    ensures Progress(all, all, [])
  {
    assert [] + all.1 == all.1;
  }

  lemma ProgressStep<S>(host: Order, dispatch: Dispatch<S>, srv: Server<S>, inp: seq<byte>,
          garbage: nat -> (byte, byte),
                        k: nat, tests: nat, all: (Server<S>, seq<byte>), sent: seq<byte>, r: Round<S>, left: nat)
    requires srv.Valid() && Progress(all, ServeUntil(host, dispatch, srv, inp, garbage, k, tests), sent)
    requires TakeTurn(host, dispatch, srv, inp, garbage(k).0, garbage(k).1, tests) == Go(r, left)
    ensures r.srv.Valid() && |r.rest| < |inp|
    ensures Progress(all, ServeUntil(host, dispatch, r.srv, r.rest, garbage, k + 1, left), sent + r.out)
  {
    hide TakeTurn;
    var out := ServeUntil(host, dispatch, r.srv, r.rest, garbage, k + 1, left).1;
    assert sent + (r.out + out) == (sent + r.out) + out;
  }

  lemma ProgressEnd<S>(host: Order, dispatch: Dispatch<S>, srv: Server<S>, inp: seq<byte>, garbage: nat -> (byte, byte),
                       k: nat, tests: nat, all: (Server<S>, seq<byte>), sent: seq<byte>, srv': Server<S>)
    requires srv.Valid() && Progress(all, ServeUntil(host, dispatch, srv, inp, garbage, k, tests), sent)
    requires TakeTurn(host, dispatch, srv, inp, garbage(k).0, garbage(k).1, tests) == Stop(srv')
    ensures all == (srv', sent)
  {
    hide TakeTurn;
    assert sent + [] == sent;
  }
}
