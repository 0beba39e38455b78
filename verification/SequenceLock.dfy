/** The sequence lock of CtrlrFx/SeqLock.h: one writer changes the words of a shared object one
    at a time while any number of readers copy them one at a time. */
module SequenceLock {

  /** Number of values of the counter type, which wraps around; its values are numbered from 0,
      whatever they mean as signed numbers. A type wider than an int has a multiple of its
      values. */
  type Modulus = n: nat | n >= 2 && n % 2 == 0 && (n <= INT || n % INT == 0) witness 2

  /** Number of values of an int. */
  const INT: nat := 0x1_0000_0000

  function Incremented(wrap: Modulus, ctr: nat): nat { if ctr + 1 >= wrap then 0 else ctr + 1 }

  /** The counter as read_begin returns it, an int, and as it compares with the counter again. A
      counter no wider than an int is kept; of a wider one the low 32 bits are, extended by their
      sign. */
  function Converted(wrap: Modulus, ctr: nat): (c: nat)
    requires ctr < wrap
    ensures c < wrap && c % 2 == ctr % 2
  {
    if wrap <= INT then ctr
    else
      var low := ctr % INT;
      assert low % 2 == ctr % 2;
      if low < INT / 2 then low else wrap - INT + low
  }

  /** The counter is a value of int, too. */
  predicate FitsInt(wrap: Modulus, ctr: nat) { wrap <= INT || ctr < INT / 2 || ctr + INT / 2 >= wrap }

  predicate Retry(ctr: nat, begin: nat) { begin % 2 != 0 || begin != ctr }

  class SeqLock {
    const wrap: Modulus
    var ctr: nat

    /** The counter starts as anything. */
    constructor (wrap: Modulus, ctr: nat)
      requires ctr < wrap
      ensures this.wrap == wrap && this.ctr == ctr
    {
      this.wrap := wrap;
      this.ctr := ctr;
    }

    method WriteLock()
      requires ctr < wrap
      modifies this
      ensures ctr == Incremented(wrap, old(ctr)) < wrap
    {
      ctr := if ctr + 1 == wrap then 0 else ctr + 1;
    }

    method WriteUnlock()
      requires ctr < wrap
      modifies this
      ensures ctr == Incremented(wrap, old(ctr)) < wrap
    {
      ctr := if ctr + 1 == wrap then 0 else ctr + 1;
    }

    method ReadBegin() returns (begin: nat)
      requires ctr < wrap
      ensures begin == Converted(wrap, ctr) && (FitsInt(wrap, ctr) <==> begin == ctr)
    {
      begin := Converted(wrap, ctr);
      ConvertedIsSameIff(wrap, ctr);
    }

    method ReadRetry(begin: nat) returns (retry: bool)
      ensures retry == Retry(ctr, begin)
    {
      retry := begin % 2 != 0 || begin != ctr;
    }
  }

  /** The conversion loses nothing exactly for the values of int. */
  lemma ConvertedIsSameIff(wrap: Modulus, ctr: nat)
    requires ctr < wrap
    ensures Converted(wrap, ctr) == ctr <==> FitsInt(wrap, ctr)
  {
  }

  /** The conversion gives the only value of int, taken as a value of the counter, that has the
      counter's low 32 bits. */
  lemma ConvertedIsInt(wrap: Modulus, ctr: nat, c: nat)
    requires ctr < wrap && wrap > 0x1_0000_0000 && c < wrap
    ensures c == Converted(wrap, ctr) <==>
              c % 0x1_0000_0000 == ctr % 0x1_0000_0000 && (c < 0x8000_0000 || c >= wrap - 0x8000_0000)
  {
  }

  // ----- The transition system -----

  /** `copied` are the words read so far. Known to the specification only are `start`, the
      counter at read_begin, `since`, its increments since then, and `snapshot`, the object as
      last committed then. */
  datatype Reader<T> = Reader(begin: nat, copied: map<nat, T>, start: nat, since: nat, snapshot: seq<T>)

  datatype State<T> = State(
    wrap: Modulus,
    ctr: nat,
    writing: bool,
    words: seq<T>,
    committed: seq<T>,
    readers: map<nat, Reader<T>>)

  datatype Action<T> =
    | WriteLock
    | WriteWord(i: nat, v: T)
    | WriteUnlock
    | ReadBegin(r: nat)
    | ReadWord(r: nat, i: nat)

  /** The writer changes words only between write_lock and write_unlock. */
  predicate Enabled<T>(s: State<T>, a: Action<T>) {
    && s.ctr < s.wrap
    && match a
       case WriteLock => !s.writing
       case WriteWord(i, _) => s.writing && i < |s.words|
       case WriteUnlock => s.writing
       case ReadBegin(_) => true
       case ReadWord(r, i) => r in s.readers && i < |s.words|
  }

  function Aged<T>(readers: map<nat, Reader<T>>): map<nat, Reader<T>> {
    map r | r in readers :: readers[r].(since := readers[r].since + 1)
  }

  function Apply<T>(s: State<T>, a: Action<T>): State<T>
    requires Enabled(s, a)
  {
    match a
    case WriteLock => s.(ctr := Incremented(s.wrap, s.ctr), writing := true, readers := Aged(s.readers))
    case WriteWord(i, v) => s.(words := s.words[i := v])
    case WriteUnlock =>
      s.(ctr := Incremented(s.wrap, s.ctr), writing := false, committed := s.words, readers := Aged(s.readers))
    case ReadBegin(r) =>
      s.(readers := s.readers[r := Reader(Converted(s.wrap, s.ctr), map[], s.ctr, 0, s.committed)])
    case ReadWord(r, i) =>
      var reader := s.readers[r];
      s.(readers := s.readers[r := reader.(copied := reader.copied[i := s.words[i]])])
  }

  predicate Runs<T>(s: State<T>, acts: seq<Action<T>>)
    decreases |acts|
  {
    acts == [] || (Enabled(s, acts[0]) && Runs(Apply(s, acts[0]), acts[1..]))
  }

  function Exec<T>(s: State<T>, acts: seq<Action<T>>): State<T>
    requires Runs(s, acts)
    decreases |acts|
  {
    if acts == [] then s else Exec(Apply(s, acts[0]), acts[1..])
  }

  /** Nobody is at work; the counter is anything. */
  ghost predicate Idle<T>(s: State<T>) {
    s.ctr < s.wrap && !s.writing && s.committed == s.words && s.readers == map[]
  }

  /** The counter starts even, as the lock means it to. */
  ghost predicate Initial<T>(s: State<T>) { Idle(s) && s.ctr % 2 == 0 }

  // ----- The counter -----

  /** Counter value after `k` increments. */
  function Advanced(wrap: Modulus, begin: nat, k: nat): (r: nat)
    requires begin < wrap
    ensures r < wrap
  {
    if k == 0 then begin else Incremented(wrap, Advanced(wrap, begin, k - 1))
  }

  /** Increments that take the counter round a whole number of times. */
  predicate WholeRounds(wrap: Modulus, k: nat) {
    k == 0 || (k >= wrap && WholeRounds(wrap, k - wrap))
  }

  /** Increments from the counter to the value that its conversion compares equal to: none for
      the values of int. */
  function Detour(wrap: Modulus, ctr: nat): (d: nat)
    requires ctr < wrap
    ensures d < wrap && (d == 0 <==> FitsInt(wrap, ctr))
  {
    ConvertedIsSameIff(wrap, ctr);
    var c := Converted(wrap, ctr);
    if c >= ctr then c - ctr else c + wrap - ctr
  }

  lemma {:induction false} AdvancedWithin(wrap: Modulus, begin: nat, k: nat)
    requires begin < wrap && k <= wrap
    ensures Advanced(wrap, begin, k) == if begin + k < wrap then begin + k else begin + k - wrap
    decreases k
  {
    if k > 0 {
      AdvancedWithin(wrap, begin, k - 1);
    }
  }

  lemma {:induction false} AdvancedAdds(wrap: Modulus, begin: nat, j: nat, k: nat)
    requires begin < wrap
    ensures Advanced(wrap, begin, j + k) == Advanced(wrap, Advanced(wrap, begin, j), k)
    decreases k
  {
    if k > 0 {
      AdvancedAdds(wrap, begin, j, k - 1);
    }
  }

  /** The counter is back where it was exactly after whole rounds. */
  lemma {:induction false} BackIff(wrap: Modulus, begin: nat, k: nat)
    requires begin < wrap
    ensures Advanced(wrap, begin, k) == begin <==> WholeRounds(wrap, k)
    decreases k
  {
    AdvancedWithin(wrap, begin, if k <= wrap then k else wrap);
    if k >= wrap {
      AdvancedAdds(wrap, begin, wrap, k - wrap);
      BackIff(wrap, begin, k - wrap);
    }
  }

  /** And it is at the converted value exactly after the detour and whole rounds. */
  lemma MeetsIff(wrap: Modulus, start: nat, k: nat)
    requires start < wrap
    ensures var d := Detour(wrap, start);
            Advanced(wrap, start, k) == Converted(wrap, start) <==> k >= d && WholeRounds(wrap, k - d)
  {
    var d := Detour(wrap, start);
    AdvancedWithin(wrap, start, d);
    if k >= d {
      AdvancedAdds(wrap, start, d, k - d);
      BackIff(wrap, Converted(wrap, start), k - d);
    } else {
      AdvancedWithin(wrap, start, k);
    }
  }

  // ----- The invariant -----

  /** `p` is the parity of the counter between two writes. */
  ghost predicate CounterInv<T>(s: State<T>, p: nat) {
    && s.ctr < s.wrap
    && (s.writing <==> s.ctr % 2 != p)
    && (!s.writing ==> s.committed == s.words)
  }

  ghost predicate ReaderInv<T>(s: State<T>, p: nat, reader: Reader<T>) {
    && reader.start < s.wrap
    && reader.begin == Converted(s.wrap, reader.start)
    && s.ctr == Advanced(s.wrap, reader.start, reader.since)
    && (forall i :: i in reader.copied ==> i < |s.words|)
    && (reader.since == 0 && reader.start % 2 == p ==>
          && reader.snapshot == s.words
          && forall i :: i in reader.copied ==> reader.copied[i] == reader.snapshot[i])
  }

  ghost predicate Inv<T>(s: State<T>, p: nat) {
    p < 2 && CounterInv(s, p) && forall r :: r in s.readers ==> ReaderInv(s, p, s.readers[r])
  }

  lemma ReaderAges<T>(s: State<T>, p: nat, a: Action<T>, reader: Reader<T>)
    requires Inv(s, p) && Enabled(s, a) && (a.WriteLock? || a.WriteUnlock?) && ReaderInv(s, p, reader)
    ensures ReaderInv(Apply(s, a), p, reader.(since := reader.since + 1))
  {
  }

  lemma IncrementFlips(wrap: Modulus, ctr: nat)
    requires ctr < wrap
    ensures Incremented(wrap, ctr) < wrap && Incremented(wrap, ctr) % 2 != ctr % 2
  {
    Flips(wrap, ctr);
  }

  lemma Flips(wrap: nat, ctr: nat)
    requires ctr < wrap && wrap % 2 == 0
    ensures (ctr + 1) % 2 != ctr % 2 && (ctr + 1 == wrap ==> ctr % 2 == 1)
  {
  }

  lemma CounterStep<T>(s: State<T>, p: nat, a: Action<T>)
    requires p < 2 && CounterInv(s, p) && Enabled(s, a)
    ensures CounterInv(Apply(s, a), p) && |Apply(s, a).words| == |s.words| && Apply(s, a).wrap == s.wrap
  {
    hide Incremented;
    IncrementFlips(s.wrap, s.ctr);
  }

  lemma InvStep<T>(s: State<T>, p: nat, a: Action<T>)
    requires Inv(s, p) && Enabled(s, a)
    ensures Inv(Apply(s, a), p) && |Apply(s, a).words| == |s.words| && Apply(s, a).wrap == s.wrap
  {
    hide Converted;
    CounterStep(s, p, a);
    if a.WriteLock? || a.WriteUnlock? {
      forall r | r in s.readers {
        ReaderAges(s, p, a, s.readers[r]);
      }
    }
  }

  lemma {:induction false} InvRun<T>(s: State<T>, p: nat, acts: seq<Action<T>>)
    requires Inv(s, p) && Runs(s, acts)
    ensures Inv(Exec(s, acts), p) && |Exec(s, acts).words| == |s.words| && Exec(s, acts).wrap == s.wrap
    decreases |acts|
  {
    if acts != [] {
      hide Inv, Apply, Enabled;
      InvStep(s, p, acts[0]);
      InvRun(Apply(s, acts[0]), p, acts[1..]);
    }
  }

  // ----- Main results -----

  /** What read_retry answers, on every run and for every counter type: a read is accepted
      exactly when it began at an even counter and the increments since are a whole number of
      rounds - none included - behind the detour of that counter. */
  lemma AcceptedIff<T>(s: State<T>, acts: seq<Action<T>>, r: nat)
    requires Idle(s) && Runs(s, acts) && r in Exec(s, acts).readers
    ensures var e := Exec(s, acts); var reader := e.readers[r];
            && e.wrap == s.wrap && reader.start < s.wrap
            && var d := Detour(s.wrap, reader.start);
            (!Retry(e.ctr, reader.begin) <==>
               reader.start % 2 == 0 && reader.since >= d && WholeRounds(s.wrap, reader.since - d))
  {
    InvRun(s, s.ctr % 2, acts);
    var reader := Exec(s, acts).readers[r];
    MeetsIff(s.wrap, reader.start, reader.since);
  }

  /** A read that no write disturbed is accepted exactly when it began at an even counter that
      is a value of int. */
  lemma UndisturbedAcceptedIff<T>(s: State<T>, acts: seq<Action<T>>, r: nat)
    requires Idle(s) && Runs(s, acts) && r in Exec(s, acts).readers && Exec(s, acts).readers[r].since == 0
    ensures var e := Exec(s, acts); var reader := e.readers[r];
            !Retry(e.ctr, reader.begin) <==> reader.start % 2 == 0 && FitsInt(s.wrap, reader.start)
  {
    AcceptedIff(s, acts, r);
  }

  /** A read that copied every word and need not be retried returned the object exactly as it
      was committed at read_begin, provided the counter was a value of int then and has not gone
      round since. */
  lemma AcceptedReadIsSnapshot<T>(s: State<T>, acts: seq<Action<T>>, r: nat)
    requires Initial(s) && Runs(s, acts)
    requires r in Exec(s, acts).readers
    requires var e := Exec(s, acts); var reader := e.readers[r];
             && !Retry(e.ctr, reader.begin)
             && FitsInt(s.wrap, reader.start) && reader.since < s.wrap
             && forall i :: 0 <= i < |s.words| ==> i in reader.copied
    ensures var reader := Exec(s, acts).readers[r];
            |reader.snapshot| == |s.words|
            && forall i :: 0 <= i < |s.words| ==> reader.copied[i] == reader.snapshot[i]
  {
    InvRun(s, 0, acts);
    AcceptedIff(s, acts, r);
  }

  /** From any start of the counter: a read that begins now is retried, whatever happens to the
      counter, exactly when the writer is at work and the counter started even, or it is not and
      the counter started odd. */
  lemma AlwaysRetriedIff<T>(s: State<T>, acts: seq<Action<T>>)
    requires Idle(s) && Runs(s, acts)
    ensures var e := Exec(s, acts);
            && e.ctr < e.wrap
            && ((forall later: nat :: later < e.wrap ==> Retry(later, Converted(e.wrap, e.ctr))) <==>
                (e.writing <==> s.ctr % 2 == 0))
  {
    InvRun(s, s.ctr % 2, acts);
    var e := Exec(s, acts);
    var c := Converted(e.wrap, e.ctr);
    if e.ctr % 2 == 0 {
      assert !Retry(c, c);
    }
  }

  /** So with an even start a read begun while the writer is at work is always retried. */
  lemma ReadDuringWriteIsRetried<T>(s: State<T>, acts: seq<Action<T>>, later: nat)
    requires Initial(s) && Runs(s, acts) && Exec(s, acts).writing && later < s.wrap
    ensures Exec(s, acts).ctr < s.wrap && Retry(later, Converted(s.wrap, Exec(s, acts).ctr))
  {
    InvRun(s, 0, acts);
  }

  // ----- Where the lock fails -----

  /** A write of the whole object. */
  const WRITE: seq<Action<nat>> := [WriteLock, WriteWord(0, 8), WriteWord(1, 8), WriteUnlock]

  function WriteTimes(n: nat): seq<Action<nat>> { if n == 0 then [] else WRITE + WriteTimes(n - 1) }

  /** A read of two words around `n` whole writes. */
  function ReadAround(n: nat): seq<Action<nat>> {
    [ReadBegin(0), ReadWord(0, 0)] + WriteTimes(n) + [ReadWord(0, 1)]
  }

  /** The object holds two words of 7, nobody is at work. */
  function Sevens(wrap: Modulus, start: nat): State<nat> {
    State(wrap, start, false, [7, 7], [7, 7], map[])
  }

  lemma {:induction false} RunsAppend<T>(s: State<T>, a: seq<Action<T>>, b: seq<Action<T>>)
    requires Runs(s, a) && Runs(Exec(s, a), b)
    ensures Runs(s, a + b) && Exec(s, a + b) == Exec(Exec(s, a), b)
    decreases |a|
  {
    if a == [] {
      assert a + b == b;
    } else {
      assert (a + b)[0] == a[0] && (a + b)[1..] == a[1..] + b;
      hide Enabled, Apply;
      RunsAppend(Apply(s, a[0]), a[1..], b);
    }
  }

  lemma OneMore<T>(s: State<T>, a: Action<T>, acts: seq<Action<T>>)
    requires Enabled(s, a) && Runs(Apply(s, a), acts)
    ensures Runs(s, [a] + acts) && Exec(s, [a] + acts) == Exec(Apply(s, a), acts)
  {
    assert ([a] + acts)[1..] == acts;
  }

  lemma FourSteps<T>(s: State<T>, s1: State<T>, s2: State<T>, s3: State<T>, a: Action<T>, b: Action<T>, c: Action<T>,
      d: Action<T>)
    requires Enabled(s, a) && s1 == Apply(s, a) && Enabled(s1, b) && s2 == Apply(s1, b)
    requires Enabled(s2, c) && s3 == Apply(s2, c) && Enabled(s3, d)
    ensures Runs(s, [a, b, c, d]) && Exec(s, [a, b, c, d]) == Apply(s3, d)
  {
    hide Enabled, Apply;
    OneMore(s3, d, []);
    OneMore(s2, c, [d]);
    OneMore(s1, b, [c, d]);
    OneMore(s, a, [b, c, d]);
    assert [a, b, c, d] == [a] + [b, c, d] && [b, c, d] == [b] + [c, d] && [c, d] == [c] + [d] && [d] == [d] + [];
  }

  /** The writer's increments, seen by a single reader. */
  lemma OneStep(s: State<nat>, t: State<nat>)
    requires s.ctr < s.wrap && s.readers.Keys == {0}
    requires t.wrap == s.wrap && t.ctr == Incremented(s.wrap, s.ctr) && t.writing != s.writing && t.words == s.words
    requires t.committed == if s.writing then s.words else s.committed
    requires t.readers == map[0 := s.readers[0].(since := s.readers[0].since + 1)]
    ensures var a := if s.writing then WriteUnlock else WriteLock; Enabled(s, a) && Apply(s, a) == t
  {
    hide Incremented;
    assert Aged(s.readers) == t.readers;
  }

  lemma WordSteps(s1: State<nat>, s2: State<nat>, s3: State<nat>)
    requires s1.ctr < s1.wrap && s1.writing && |s1.words| == 2
    requires s2 == s1.(words := s1.words[0 := 8]) && s3 == s1.(words := [8, 8])
    ensures Enabled(s1, WriteWord(0, 8)) && Apply(s1, WriteWord(0, 8)) == s2
    ensures Enabled(s2, WriteWord(1, 8)) && Apply(s2, WriteWord(1, 8)) == s3
  {
    assert s3.words == s2.words[1 := 8];
  }

  lemma TwoIncrements(wrap: Modulus, ctr: nat)
    requires ctr < wrap
    ensures var c := Incremented(wrap, ctr); c < wrap && Advanced(wrap, ctr, 2) == Incremented(wrap, c)
  {
    assert Advanced(wrap, ctr, 2) == Incremented(wrap, Advanced(wrap, ctr, 1));
  }

  /** One whole write, seen by a single reader. */
  lemma OneWrite(s: State<nat>)
    requires s.ctr < s.wrap && !s.writing && |s.words| == 2 && s.readers.Keys == {0}
    ensures Runs(s, WRITE) && Exec(s, WRITE) == Written(s)
  {
    hide Runs, Exec, Enabled, Apply, Incremented, Advanced;
    TwoIncrements(s.wrap, s.ctr);
    var since := s.readers[0].since;
    var s1 := s.(ctr := Incremented(s.wrap, s.ctr), writing := true,
                 readers := map[0 := s.readers[0].(since := since + 1)]);
    var s2, s3 := s1.(words := s1.words[0 := 8]), s1.(words := [8, 8]);
    OneStep(s, s1);
    WordSteps(s1, s2, s3);
    OneStep(s3, Written(s));
    FourSteps(s, s1, s2, s3, WriteLock, WriteWord(0, 8), WriteWord(1, 8), WriteUnlock);
  }

  /** The state after a whole write. */
  function Written(s: State<nat>): State<nat>
    requires s.ctr < s.wrap && s.readers.Keys == {0}
  {
    var reader := s.readers[0];
    State(s.wrap, Advanced(s.wrap, s.ctr, 2), false, [8, 8], [8, 8], map[0 := reader.(since := reader.since + 2)])
  }

  lemma {:induction false} WritesRun(s: State<nat>, n: nat)
    requires s.ctr < s.wrap && !s.writing && |s.words| == 2 && s.readers.Keys == {0} && n > 0
    ensures var reader := s.readers[0];
            && Runs(s, WriteTimes(n))
            && Exec(s, WriteTimes(n)) == State(s.wrap, Advanced(s.wrap, s.ctr, 2 * n), false, [8, 8], [8, 8],
                                               map[0 := reader.(since := reader.since + 2 * n)])
    decreases n
  {
    OneWrite(s);
    hide Runs, Exec, Advanced;
    if n == 1 {
      assert WriteTimes(1) == WRITE + WriteTimes(0) == WRITE;
    } else {
      var t := Exec(s, WRITE);
      WritesRun(t, n - 1);
      RunsAppend(s, WRITE, WriteTimes(n - 1));
      AdvancedAdds(s.wrap, s.ctr, 2, 2 * (n - 1));
    }
  }

  /** When the writes in between bring the counter to the value that read_begin returned, the
      reader accepts one word from before them and one from behind them. */
  lemma FoolsReader(wrap: Modulus, start: nat, n: nat)
    requires start < wrap && start % 2 == 0 && n > 0
    requires Advanced(wrap, start, 2 * n) == Converted(wrap, start)
    ensures var s := Sevens(wrap, start);
            && Initial(s) && Runs(s, ReadAround(n))
            && var e := Exec(s, ReadAround(n));
            && e.readers == map[0 := Reader(Converted(wrap, start), map[0 := 7, 1 := 8], start, 2 * n, [7, 7])]
            && !Retry(e.ctr, e.readers[0].begin)
  {
    var s := Sevens(wrap, start);
    var begun: seq<Action<nat>> := [ReadBegin(0), ReadWord(0, 0)];
    var s1 := Apply(s, ReadBegin(0));
    var s2 := Apply(s1, ReadWord(0, 0));
    assert s2.readers == map[0 := Reader(Converted(wrap, start), map[0 := 7], start, 0, [7, 7])];
    OneMore(s1, ReadWord(0, 0), []);
    OneMore(s, ReadBegin(0), [ReadWord(0, 0)]);
    assert begun == [ReadBegin(0)] + [ReadWord(0, 0)] && begun[1..] == [ReadWord(0, 0)] + [];
    WritesRun(s2, n);
    var s3 := Exec(s2, WriteTimes(n));
    var s4 := Apply(s3, ReadWord(0, 1));
    assert s4.readers[0].copied == map[0 := 7, 1 := 8];
    OneMore(s3, ReadWord(0, 1), []);
    assert ReadAround(0)[2..] == [ReadWord(0, 1)] + [];
    hide Runs, Exec, Enabled, Apply, Converted;
    RunsAppend(s, begun, WriteTimes(n));
    RunsAppend(s, begun + WriteTimes(n), [ReadWord(0, 1)]);
  }

  /** Whatever the counter type, a whole round of its values in between fools a reader. */
  lemma WholeRoundFoolsReader(wrap: Modulus)
    ensures var s := Sevens(wrap, 0); var acts := ReadAround(wrap / 2);
            && Initial(s) && Runs(s, acts)
            && var e := Exec(s, acts);
            && e.readers == map[0 := Reader(0, map[0 := 7, 1 := 8], 0, wrap, [7, 7])]
            && !Retry(e.ctr, e.readers[0].begin)
  {
    AdvancedWithin(wrap, 0, wrap);
    FoolsReader(wrap, 0, wrap / 2);
  }

  /** A counter wider than an int is worse. Begun at any even value that is not one of int, a
      read can be accepted with mixed words before the counter has gone round, and is retried
      when nothing was written. */
  lemma WideCounterFoolsReader(wrap: Modulus, start: nat)
    requires start < wrap && start % 2 == 0 && !FitsInt(wrap, start)
    ensures var s := Sevens(wrap, start); var n := Detour(wrap, start) / 2;
            && Initial(s) && Runs(s, ReadAround(n))
            && var e := Exec(s, ReadAround(n));
            && 2 * n < wrap
            && e.readers == map[0 := Reader(Converted(wrap, start), map[0 := 7, 1 := 8], start, 2 * n, [7, 7])]
            && !Retry(e.ctr, e.readers[0].begin)
    ensures Retry(start, Converted(wrap, start))
  {
    AdvancedWithin(wrap, start, Detour(wrap, start));
    FoolsReader(wrap, start, Detour(wrap, start) / 2);
  }

  /** An instance with a counter of 64 bits, 2^32 before it goes round. */
  lemma WideCounterInstance()
    ensures var wrap: Modulus := 0x1_0000_0000_0000_0000;
            var s, acts := Sevens(wrap, wrap - 0x1_0000_0000), ReadAround(0x8000_0000);
            && Initial(s) && Runs(s, acts)
            && var e := Exec(s, acts);
            && e.readers == map[0 := Reader(0, map[0 := 7, 1 := 8], s.ctr, 0x1_0000_0000, [7, 7])]
            && !Retry(e.ctr, e.readers[0].begin)
    ensures Retry(0x1_0000_0000, Converted(0x1_0000_0000_0000_0000, 0x1_0000_0000))
  {
    hide Runs, Exec, ReadAround, Initial;
    WideCounterFoolsReader(0x1_0000_0000_0000_0000, 0x1_0000_0000_0000_0000 - 0x1_0000_0000);
  }

  /** With an odd start a read begun while the writer is at work can be accepted, and then mixes
      words. */
  lemma OddStartFoolsReader(wrap: Modulus)
    ensures var s := Sevens(wrap, 1);
            var acts := [WriteLock, ReadBegin(0), ReadWord(0, 0), WriteWord(0, 8), WriteWord(1, 8), ReadWord(0, 1)];
            && Idle(s) && Runs(s, acts)
            && var e := Exec(s, acts);
            && e.readers.Keys == {0} && e.readers[0].copied == map[0 := 7, 1 := 8]
            && e.readers[0].since == 0 && e.readers[0].snapshot == [7, 7]
            && (!Retry(e.ctr, e.readers[0].begin) <==> FitsInt(wrap, e.ctr))
  {
  }
}
