/** The reader/writer lock of src/os/generic/RdWrLock.cpp.

    The mutex of the condition variable is held except inside `wait`, so one atomic step of a
    call is the code between two waits.  The class below holds the fields and has one method
    per such section; the transition system runs any number of calls over the same sections.
    A call is one rd_lock or wr_lock together with the release of what it acquired, so a
    thread that locks several times has several calls. */
module ReaderWriterLock {
  import opened Counting

  datatype Fields = Fields(wrlk: bool, wrwt: bool, nrd: nat)

  /** Where a call is. The writer's first wait is for `wrwt`, the second for the lock itself. */
  datatype Phase =
    | RdAwake | RdAsleep | RdHold
    | W1Awake | W1Asleep | W2Awake | W2Asleep | WrHold
    | Done

  datatype Wake = Quiet | Signal | Broadcast

  // ----- The atomic sections -----

  function RdStage(f: Fields): (Fields, Phase) {
    if f.wrlk || f.wrwt then (f, RdAsleep) else (f.(nrd := f.nrd + 1), RdHold)
  }

  function SecondStage(f: Fields): (Fields, Phase, Wake) {
    if f.wrlk || f.nrd > 0 then (f, W2Asleep, Quiet)
    else (f.(wrlk := true, wrwt := false), WrHold, Signal)
  }

  function FirstStage(f: Fields): (Fields, Phase, Wake) {
    if f.wrwt then (f, W1Asleep, Quiet) else SecondStage(f.(wrwt := true))
  }

  function RdUnlock(f: Fields): (Fields, bool, Wake) {
    if f.nrd == 0 then (f, false, Quiet)
    else (f.(nrd := f.nrd - 1), true, if f.nrd == 1 then Broadcast else Quiet)
  }

  function WrUnlock(f: Fields): (Fields, bool, Wake) {
    if !f.wrlk then (f, false, Quiet) else (f.(wrlk := false), true, Broadcast)
  }

  function WrDemote(f: Fields): (Fields, bool, Wake) {
    if !f.wrlk then (f, false, Quiet) else (f.(wrlk := false, nrd := f.nrd + 1), true, Broadcast)
  }

  class RdWrLock {
    var wrlk: bool
    var wrwt: bool
    var nrd: nat

    ghost function View(): Fields
      reads this
    {
      Fields(wrlk, wrwt, nrd)
    }

    constructor ()
      ensures View() == Fields(false, false, 0)
    {
      wrlk, wrwt, nrd := false, false, 0;
    }

    /** rd_lock from its entry, or from a wake-up, to the next wait or the return. */
    method RdLockSection() returns (phase: Phase)
      modifies this
      ensures (View(), phase) == RdStage(old(View()))
    {
      if wrlk || wrwt {
        return RdAsleep;
      }
      nrd := nrd + 1;
      phase := RdHold;
    }

    /** wr_lock from its entry, or from a wake-up in the first loop. */
    method WrLockSection() returns (phase: Phase, wake: Wake)
      modifies this
      ensures (View(), phase, wake) == FirstStage(old(View()))
    {
      if wrwt {
        return W1Asleep, Quiet;
      }
      wrwt := true;
      phase, wake := WrLockRest();
    }

    /** wr_lock from a wake-up in the second loop. */
    method WrLockRest() returns (phase: Phase, wake: Wake)
      modifies this
      ensures (View(), phase, wake) == SecondStage(old(View()))
    {
      if wrlk || nrd > 0 {
        return W2Asleep, Quiet;
      }
      wrlk := true;
      wrwt := false;
      phase, wake := WrHold, Signal;
    }

    method RdUnlockSection() returns (ok: bool, wake: Wake)
      modifies this
      ensures (View(), ok, wake) == RdUnlock(old(View()))
    {
      wake := Quiet;
      if nrd == 0 {
        return false, wake;
      }
      nrd := nrd - 1;
      if nrd == 0 {
        wake := Broadcast;
      }
      ok := true;
    }

    method WrUnlockSection() returns (ok: bool, wake: Wake)
      modifies this
      ensures (View(), ok, wake) == WrUnlock(old(View()))
    {
      if !wrlk {
        return false, Quiet;
      }
      wrlk := false;
      ok, wake := true, Broadcast;
    }

    method WrDemoteSection() returns (ok: bool, wake: Wake)
      modifies this
      ensures (View(), ok, wake) == WrDemote(old(View()))
    {
      if !wrlk {
        return false, Quiet;
      }
      wrlk := false;
      nrd := nrd + 1;
      ok, wake := true, Broadcast;
    }
  }

  // ----- The transition system -----

  datatype State = State(f: Fields, calls: map<nat, Phase>)

  const INIT := State(Fields(false, false, 0), map[])

  /** `to` is the sleeper that a signal picks, when there is one. */
  datatype Action =
    | BeginRead(t: nat)
    | BeginWrite(t: nat)
    | Proceed(t: nat, to: nat)
    | ReleaseRead(t: nat)
    | ReleaseWrite(t: nat)
    | Demote(t: nat)
    | Spurious(t: nat)

  predicate Asleep(p: Phase) { p.RdAsleep? || p.W1Asleep? || p.W2Asleep? }

  predicate Awake(p: Phase) { p.RdAwake? || p.W1Awake? || p.W2Awake? }

  predicate Second(p: Phase) { p.W2Awake? || p.W2Asleep? }

  predicate Reads(p: Phase) { p.RdHold? }

  predicate Writes(p: Phase) { p.WrHold? }

  function Woken(p: Phase): Phase {
    match p
    case RdAsleep => RdAwake
    case W1Asleep => W1Awake
    case W2Asleep => W2Awake
    case _ => p
  }

  function WakeAll(calls: map<nat, Phase>): map<nat, Phase> {
    map t | t in calls :: Woken(calls[t])
  }

  function WakeOne(calls: map<nat, Phase>, to: nat): map<nat, Phase> {
    if to in calls then calls[to := Woken(calls[to])] else calls
  }

  function Deliver(calls: map<nat, Phase>, wake: Wake, to: nat): map<nat, Phase> {
    match wake
    case Quiet => calls
    case Signal => WakeOne(calls, to)
    case Broadcast => WakeAll(calls)
  }

  /** The section that a call in front of a test runs next. */
  function Section(f: Fields, p: Phase): (Fields, Phase, Wake)
    requires Awake(p)
  {
    match p
    case RdAwake => var (g, q) := RdStage(f); (g, q, Quiet)
    case W1Awake => FirstStage(f)
    case W2Awake => SecondStage(f)
  }

  /** Calls release only what they hold; a signal wakes some sleeper if there is any. */
  predicate Enabled(s: State, a: Action) {
    match a
    case BeginRead(t) => t !in s.calls
    case BeginWrite(t) => t !in s.calls
    case Proceed(t, to) =>
      && t in s.calls && Awake(s.calls[t])
      && ((exists u :: u in s.calls && Asleep(s.calls[u])) ==> to in s.calls && Asleep(s.calls[to]))
    case ReleaseRead(t) => t in s.calls && Reads(s.calls[t])
    case ReleaseWrite(t) => t in s.calls && Writes(s.calls[t])
    case Demote(t) => t in s.calls && Writes(s.calls[t])
    case Spurious(t) => t in s.calls && Asleep(s.calls[t])
  }

  function Apply(s: State, a: Action): State
    requires Enabled(s, a)
  {
    match a
    case BeginRead(t) => s.(calls := s.calls[t := RdAwake])
    case BeginWrite(t) => s.(calls := s.calls[t := W1Awake])
    case Proceed(t, to) =>
      var (g, q, wake) := Section(s.f, s.calls[t]);
      State(g, Deliver(s.calls, wake, to)[t := q])
    case ReleaseRead(t) =>
      var (g, _, wake) := RdUnlock(s.f);
      State(g, Deliver(s.calls[t := Done], wake, t))
    case ReleaseWrite(t) =>
      var (g, _, wake) := WrUnlock(s.f);
      State(g, Deliver(s.calls[t := Done], wake, t))
    case Demote(t) =>
      var (g, _, wake) := WrDemote(s.f);
      State(g, Deliver(s.calls[t := RdHold], wake, t))
    case Spurious(t) => s.(calls := s.calls[t := Woken(s.calls[t])])
  }

  predicate Runs(s: State, acts: seq<Action>)
    decreases |acts|
  {
    acts == [] || (Enabled(s, acts[0]) && Runs(Apply(s, acts[0]), acts[1..]))
  }

  function Exec(s: State, acts: seq<Action>): State
    requires Runs(s, acts)
    decreases |acts|
  {
    if acts == [] then s else Exec(Apply(s, acts[0]), acts[1..])
  }

  // ----- Invariants -----

  /** The fields count the holders, readers and writers exclude each other, and the wait flag
      is set exactly while one call is in the second stage. */
  predicate Exclusion(s: State) {
    && Count(s.calls, Writes) == One(s.f.wrlk)
    && Count(s.calls, Reads) == s.f.nrd
    && !(s.f.wrlk && s.f.nrd > 0)
    && Count(s.calls, Second) == One(s.f.wrwt)
  }

  /** Whoever sleeps has something to wait for. */
  predicate NoLostWakeup(s: State) {
    forall t :: t in s.calls ==>
      && (s.calls[t].RdAsleep? || s.calls[t].W1Asleep? ==> s.f.wrlk || s.f.wrwt)
      && (s.calls[t].W2Asleep? ==> s.f.wrlk || s.f.nrd > 0)
  }

  predicate Inv(s: State) { Exclusion(s) && NoLostWakeup(s) }

  lemma Update(calls: map<nat, Phase>, t: nat, q: Phase)
    ensures forall p :: p == Reads || p == Writes || p == Second ==>
              Count(calls[t := q], p) == Count(calls, p) - One(t in calls && p(calls[t])) + One(p(q))
  {
    CountUpdate(calls, t, q, Reads);
    CountUpdate(calls, t, q, Writes);
    CountUpdate(calls, t, q, Second);
  }

  /** Waking changes no count, whomever the wake-up reaches. */
  lemma DeliverKeepsCounts(calls: map<nat, Phase>, wake: Wake, to: nat)
    ensures var after := Deliver(calls, wake, to);
            && after.Keys == calls.Keys
            && Count(after, Reads) == Count(calls, Reads)
            && Count(after, Writes) == Count(calls, Writes)
            && Count(after, Second) == Count(calls, Second)
  {
    var after := Deliver(calls, wake, to);
    CountSame(calls, after, Reads);
    CountSame(calls, after, Writes);
    CountSame(calls, after, Second);
  }

  lemma InvProceed(s: State, t: nat, to: nat)
    requires Inv(s) && Enabled(s, Proceed(t, to))
    ensures Inv(Apply(s, Proceed(t, to)))
  {
    var (g, q, wake) := Section(s.f, s.calls[t]);
    var woken := Deliver(s.calls, wake, to);
    DeliverKeepsCounts(s.calls, wake, to);
    Update(woken, t, q);
    if Second(s.calls[t]) {
      CountIsPositive(s.calls, Second, t);
    }
  }

  lemma InvRelease(s: State, a: Action)
    requires Inv(s) && Enabled(s, a) && (a.ReleaseRead? || a.ReleaseWrite? || a.Demote?)
    ensures Inv(Apply(s, a))
  {
    var t := a.t;
    var after := s.calls[t := if a.Demote? then RdHold else Done];
    Update(s.calls, t, if a.Demote? then RdHold else Done);
    if a.ReleaseRead? {
      CountIsPositive(s.calls, Reads, t);
      DeliverKeepsCounts(after, RdUnlock(s.f).2, t);
    } else {
      CountIsPositive(s.calls, Writes, t);
      DeliverKeepsCounts(after, Broadcast, t);
    }
  }

  lemma InvStep(s: State, a: Action)
    requires Inv(s) && Enabled(s, a)
    ensures Inv(Apply(s, a))
  {
    match a
    case Proceed(t, to) => InvProceed(s, t, to);
    case BeginRead(t) => Update(s.calls, t, RdAwake);
    case BeginWrite(t) => Update(s.calls, t, W1Awake);
    case Spurious(t) => Update(s.calls, t, Woken(s.calls[t]));
    case _ => InvRelease(s, a);
  }

  lemma {:induction false} InvRun(s: State, acts: seq<Action>)
    requires Inv(s) && Runs(s, acts)
    ensures Inv(Exec(s, acts))
    decreases |acts|
  {
    if acts != [] {
      InvStep(s, acts[0]);
      InvRun(Apply(s, acts[0]), acts[1..]);
    }
  }

  // ----- Main results -----

  /** In every state of every run: the holders are what the fields say, never both a reader and
      a writer, never two writers; and no sleeper has missed its wake-up. */
  lemma SafeOnAllRuns(acts: seq<Action>)
    requires Runs(INIT, acts)
    ensures Exclusion(Exec(INIT, acts)) && NoLostWakeup(Exec(INIT, acts))
  {
    assert Matching(INIT.calls, Reads) == Matching(INIT.calls, Writes) == Matching(INIT.calls, Second) == {};
    InvRun(INIT, acts);
  }

  ghost predicate Some(s: State, p: Phase -> bool) {
    exists u :: u in s.calls && p(s.calls[u])
  }

  lemma SomeIff(s: State, p: Phase -> bool)
    ensures Some(s, p) <==> Count(s.calls, p) > 0
  {
    if Some(s, p) {
      var u :| u in s.calls && p(s.calls[u]);
      CountIsPositive(s.calls, p, u);
    }
    if Count(s.calls, p) > 0 {
      var u := CountWitness(s.calls, p);
    }
  }

  /** In every reachable state, who gets the lock when it looks at it, by what the other calls
      are doing. A reader does exactly when nobody writes and no writer is in the second stage, so
      readers share the lock; a writer in the second stage exactly when nobody reads or writes;
      a writer before that passes the first stage exactly when no other is in the second, and
      then goes on in the same way. Whoever does not get it sleeps where it is. */
  lemma GrantedIff(acts: seq<Action>, t: nat, to: nat)
    requires Runs(INIT, acts) && Enabled(Exec(INIT, acts), Proceed(t, to))
    ensures var s := Exec(INIT, acts); var now := Apply(s, Proceed(t, to)).calls[t];
            var held := Some(s, Reads) || Some(s, Writes);
            match s.calls[t]
            case RdAwake => now == if Some(s, Writes) || Some(s, Second) then RdAsleep else RdHold
            case W1Awake => now == if Some(s, Second) then W1Asleep else if held then W2Asleep else WrHold
            case W2Awake => now == if held then W2Asleep else WrHold
            case _ => true
  {
    SafeOnAllRuns(acts);
    var s := Exec(INIT, acts);
    SomeIff(s, Reads);
    SomeIff(s, Writes);
    SomeIff(s, Second);
  }

  /** So a call of rd_lock or wr_lock, in any reachable state, returns at once with the lock or
      waits, by what the others are doing. */
  lemma LockReturnsIff(acts: seq<Action>, t: nat, to: nat)
    requires Runs(INIT, acts) && t !in Exec(INIT, acts).calls
    ensures var s := Exec(INIT, acts); var s1 := Apply(s, BeginRead(t));
            && Awake(s1.calls[t])
            && (Enabled(s1, Proceed(t, to)) ==>
                  Apply(s1, Proceed(t, to)).calls[t] == if Some(s, Writes) || Some(s, Second) then RdAsleep else RdHold)
    ensures var s := Exec(INIT, acts); var s1 := Apply(s, BeginWrite(t));
            && Awake(s1.calls[t])
            && (Enabled(s1, Proceed(t, to)) ==>
                  Apply(s1, Proceed(t, to)).calls[t] == if Some(s, Second) then W1Asleep
                                                        else if Some(s, Reads) || Some(s, Writes) then W2Asleep
                                                        else WrHold)
  {
    SafeOnAllRuns(acts);
    var s := Exec(INIT, acts);
    SomeIff(s, Reads);
    SomeIff(s, Writes);
    SomeIff(s, Second);
  }

  /** A step changes its own call and no other, except that sleepers may be woken, who then look
      again at what they waited for. */
  lemma OthersOnlyWake(s: State, a: Action, u: nat)
    requires Enabled(s, a) && u != a.t && u in s.calls
    ensures u in Apply(s, a).calls
    ensures var before, after := s.calls[u], Apply(s, a).calls[u];
            after == before
            || (before == RdAsleep && after == RdAwake)
            || (before == W1Asleep && after == W1Awake)
            || (before == W2Asleep && after == W2Awake)
  {
  }

  /** A writer that takes the lock wakes a sleeper, if there is one. */
  lemma WriterWakesOne(s: State, t: nat, to: nat)
    requires Enabled(s, Proceed(t, to)) && Some(s, Asleep) && Writes(Apply(s, Proceed(t, to)).calls[t])
    ensures to in s.calls && Asleep(s.calls[to]) && Awake(Apply(s, Proceed(t, to)).calls[to])
  {
  }

  /** In every reachable state an unlock or a demotion answers true exactly when somebody holds the
      lock in that way, and otherwise changes nothing and wakes nobody. Who then holds it follows:
      one reader less, no writer, or one reader more in place of the writer. */
  lemma ReleaseAnswers(acts: seq<Action>)
    requires Runs(INIT, acts)
    ensures var s := Exec(INIT, acts);
            var (g, ok, w) := RdUnlock(s.f); var (g1, ok1, w1) := WrUnlock(s.f); var (g2, ok2, w2) := WrDemote(s.f);
            && (ok <==> Some(s, Reads)) && (ok1 == ok2) && (ok1 <==> Some(s, Writes))
            && (!ok ==> g == s.f && w.Quiet?) && (!ok1 ==> g1 == g2 == s.f && w1.Quiet? && w2.Quiet?)
            && (ok ==> g.nrd == Count(s.calls, Reads) - 1 && !g.wrlk && g.wrwt == s.f.wrwt)
            && (ok1 ==> g1.nrd == 0 && !g1.wrlk && g1.wrwt == s.f.wrwt)
            && (ok2 ==> g2.nrd == 1 && !g2.wrlk && g2.wrwt == s.f.wrwt)
  {
    SafeOnAllRuns(acts);
    SomeIff(Exec(INIT, acts), Reads);
    SomeIff(Exec(INIT, acts), Writes);
  }

  /** When every call that waits is asleep, the lock is held, so somebody will wake them. */
  lemma AllAsleepIsHeld(acts: seq<Action>, w: nat) returns (holder: nat)
    requires Runs(INIT, acts)
    requires var s := Exec(INIT, acts);
             w in s.calls && Asleep(s.calls[w]) && forall t :: t in s.calls ==> !Awake(s.calls[t])
    ensures var s := Exec(INIT, acts);
            holder in s.calls && (Reads(s.calls[holder]) || Writes(s.calls[holder]))
  {
    SafeOnAllRuns(acts);
    var s := Exec(INIT, acts);
    if s.f.wrlk {
      holder := CountWitness(s.calls, Writes);
    } else {
      if s.f.nrd == 0 {
        var _ := CountWitness(s.calls, Second);
      }
      holder := CountWitness(s.calls, Reads);
    }
  }

  // ----- Bounded bypass -----

  /** `w` is in the second stage of wr_lock throughout the run. */
  predicate StaysSecond(s: State, acts: seq<Action>, w: nat)
    requires Runs(s, acts)
    decreases |acts|
  {
    && w in s.calls && Second(s.calls[w])
    && (acts == [] || StaysSecond(Apply(s, acts[0]), acts[1..], w))
  }

  function Load(f: Fields): nat { 2 * One(f.wrlk) + f.nrd }

  predicate IsRelease(a: Action) { a.ReleaseRead? || a.ReleaseWrite? || a.Demote? }

  function Releases(acts: seq<Action>): nat
    decreases |acts|
  {
    if acts == [] then 0 else One(IsRelease(acts[0])) + Releases(acts[1..])
  }

  /** Some waiting call obtains the lock in this step. */
  ghost predicate Acquires(s: State, a: Action)
    requires Enabled(s, a)
  {
    exists t :: t in s.calls && Awake(s.calls[t])
                && (Reads(Apply(s, a).calls[t]) || Writes(Apply(s, a).calls[t]))
  }

  ghost predicate NobodyAcquires(s: State, acts: seq<Action>)
    requires Runs(s, acts)
    decreases |acts|
  {
    acts == [] || (!Acquires(s, acts[0]) && NobodyAcquires(Apply(s, acts[0]), acts[1..]))
  }

  lemma BypassStep(s: State, a: Action, w: nat)
    requires Inv(s) && Enabled(s, a)
    requires w in s.calls && Second(s.calls[w])
    requires w in Apply(s, a).calls && Second(Apply(s, a).calls[w])
    ensures !Acquires(s, a)
    ensures Load(Apply(s, a).f) + One(IsRelease(a)) <= Load(s.f)
  {
    if a.Proceed? {
      BypassProceed(s, a.t, a.to, w);
    } else {
      BypassOther(s, a);
    }
  }

  /** A call that looks at the lock does not get it: `w` itself by assumption, others because the
      wait flag is set. */
  lemma BypassProceed(s: State, t: nat, to: nat, w: nat)
    requires Inv(s) && Enabled(s, Proceed(t, to))
    requires w in s.calls && Second(s.calls[w])
    requires w in Apply(s, Proceed(t, to)).calls && Second(Apply(s, Proceed(t, to)).calls[w])
    ensures !Acquires(s, Proceed(t, to)) && Apply(s, Proceed(t, to)).f == s.f
  {
    hide NoLostWakeup;
    CountIsPositive(s.calls, Second, w);
    if t != w && Second(s.calls[t]) {
      CountOnlyOne(s.calls, Second, w, t);
    }
  }

  /** The other steps take load away or leave it. */
  lemma BypassOther(s: State, a: Action)
    requires Inv(s) && Enabled(s, a) && !a.Proceed?
    ensures !Acquires(s, a)
    ensures Load(Apply(s, a).f) + One(IsRelease(a)) <= Load(s.f)
  {
    hide NoLostWakeup;
    if a.ReleaseRead? {
      CountIsPositive(s.calls, Reads, a.t);
    } else if a.ReleaseWrite? || a.Demote? {
      CountIsPositive(s.calls, Writes, a.t);
    }
  }

  /** From the step that sets `wrwt` until its writer has the lock nobody else obtains it, the
      number of releases and demotions in between is at most the load at the start, and once
      the load is gone the writer is awake and its next step takes the lock. */
  lemma {:induction false} BoundedBypass(s: State, acts: seq<Action>, w: nat)
    requires Inv(s) && Runs(s, acts) && StaysSecond(s, acts, w)
    ensures NobodyAcquires(s, acts)
    ensures Releases(acts) + Load(Exec(s, acts).f) <= Load(s.f)
    ensures var e := Exec(s, acts);
            w in e.calls && (Load(e.f) == 0 ==> e.calls[w] == W2Awake && SecondStage(e.f).1 == WrHold)
    decreases |acts|
  {
    if acts != [] {
      BypassStep(s, acts[0], w);
      InvStep(s, acts[0]);
      BoundedBypass(Apply(s, acts[0]), acts[1..], w);
    }
  }
}
