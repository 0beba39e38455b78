/** The recursive mutex of src/os/generic/RecursiveMutex.cpp, as the sections between two waits
    and as a system of any number of threads running them. */
module RecursiveLock {

  /** `owner` means something only while `level` is positive. */
  datatype Fields = Fields(owner: nat, level: nat)

  datatype Phase = Outside | WaitAwake | WaitAsleep

  // ----- The atomic sections; `curr` is the calling thread -----

  function LockEntry(f: Fields, curr: nat): (Fields, Phase) {
    if f.level == 0 then (Fields(curr, 1), Outside)
    else if f.owner == curr then (f.(level := f.level + 1), Outside)
    else (f, WaitAsleep)
  }

  /** The loop test after a wake-up. */
  function LockRecheck(f: Fields, curr: nat): (Fields, Phase) {
    if f.level > 0 then (f, WaitAsleep) else (Fields(curr, f.level + 1), Outside)
  }

  /** `busy` is whether the condition variable's own mutex was held by somebody else. */
  function TryLock(f: Fields, curr: nat, busy: bool): (Fields, bool) {
    if busy then (f, false)
    else if f.level == 0 then (Fields(curr, 1), true)
    else if f.owner != curr then (f, false)
    else (f.(level := f.level + 1), true)
  }

  /** The second result tells whether one sleeper is signalled. */
  function Unlock(f: Fields, curr: nat): (Fields, bool) {
    if f.level > 0 && f.owner == curr then (f.(level := f.level - 1), f.level == 1) else (f, false)
  }

  class RecursiveMutex {
    var owner: nat
    var level: nat

    ghost function View(): Fields
      reads this
    {
      Fields(owner, level)
    }

    constructor ()
      ensures level == 0
    {
      level := 0;
    }

    method LockSection(curr: nat) returns (phase: Phase)
      modifies this
      ensures (View(), phase) == LockEntry(old(View()), curr)
    {
      if level == 0 {
        owner := curr;
      } else if owner != curr {
        return WaitAsleep;
      }
      level := level + 1;
      phase := Outside;
    }

    method RecheckSection(curr: nat) returns (phase: Phase)
      modifies this
      ensures (View(), phase) == LockRecheck(old(View()), curr)
    {
      if level > 0 {
        return WaitAsleep;
      }
      owner := curr;
      level := level + 1;
      phase := Outside;
    }

    method TryLockSection(curr: nat, busy: bool) returns (ok: bool)
      modifies this
      ensures (View(), ok) == TryLock(old(View()), curr, busy)
    {
      if busy {
        return false;
      }
      if level == 0 {
        owner := curr;
      } else if owner != curr {
        return false;
      }
      level := level + 1;
      ok := true;
    }

    method UnlockSection(curr: nat) returns (signal: bool)
      modifies this
      ensures (View(), signal) == Unlock(old(View()), curr)
    {
      signal := false;
      if level > 0 && owner == curr {
        level := level - 1;
        if level == 0 {
          signal := true;
        }
      }
    }
  }

  // ----- The transition system -----

  /** `log` records the lock calls that returned with the lock and every unlock call. */
  datatype Event = Locked(t: nat) | Unlocking(t: nat)

  datatype State = State(f: Fields, waiting: map<nat, Phase>, log: seq<Event>)

  /** `to` is the sleeper that a signal picks, when there is one. */
  datatype Action =
    | Lock(t: nat)
    | Recheck(t: nat)
    | Try(t: nat, busy: bool)
    | Release(t: nat, to: nat)
    | Spurious(t: nat)

  function PhaseOf(s: State, t: nat): Phase {
    if t in s.waiting then s.waiting[t] else Outside
  }

  predicate Enabled(s: State, a: Action) {
    match a
    case Lock(t) => PhaseOf(s, t).Outside?
    case Try(t, _) => PhaseOf(s, t).Outside?
    case Recheck(t) => PhaseOf(s, t).WaitAwake?
    case Spurious(t) => PhaseOf(s, t).WaitAsleep?
    case Release(t, to) =>
      && PhaseOf(s, t).Outside?
      && ((exists u :: u in s.waiting && s.waiting[u].WaitAsleep?) ==> PhaseOf(s, to).WaitAsleep?)
  }

  function Entered(s: State, t: nat, g: Fields, p: Phase): State {
    State(g, s.waiting[t := p], if p.Outside? then s.log + [Locked(t)] else s.log)
  }

  function Apply(s: State, a: Action): State
    requires Enabled(s, a)
  {
    match a
    case Lock(t) => var (g, p) := LockEntry(s.f, t); Entered(s, t, g, p)
    case Recheck(t) => var (g, p) := LockRecheck(s.f, t); Entered(s, t, g, p)
    case Try(t, busy) => var (g, ok) := TryLock(s.f, t, busy); if ok then Entered(s, t, g, Outside) else s.(f := g)
    case Release(t, to) =>
      var (g, signal) := Unlock(s.f, t);
      State(g,
            if signal && PhaseOf(s, to).WaitAsleep? then s.waiting[to := WaitAwake] else s.waiting,
            s.log + [Unlocking(t)])
    case Spurious(t) => s.(waiting := s.waiting[t := WaitAwake])
  }

  predicate Runs(s: State, acts: seq<Action>)
    decreases |acts|
  {
    acts == [] || (Enabled(s, acts[0]) && Runs(Apply(s, acts[0]), acts[1..]))
  }

  function Exec(s: State, acts: seq<Action>): State
    requires Runs(s, acts)
    decreases |acts|
  {
    if acts == [] then s else Exec(Apply(s, acts[0]), acts[1..])
  }

  // ----- Reference: what each thread holds, from the history alone -----

  /** Locks minus unlocks of `t`, an unlock without a lock to undo counting for nothing. */
  function Balance(log: seq<Event>, t: nat): nat
    decreases |log|
  {
    if log == [] then 0
    else
      var before := Balance(log[..|log| - 1], t);
      match log[|log| - 1]
      case Locked(u) => if u == t then before + 1 else before
      case Unlocking(u) => if u == t && before > 0 then before - 1 else before
  }

  lemma BalanceAppend(log: seq<Event>, e: Event, t: nat)
    ensures Balance(log + [e], t) ==
            match e
            case Locked(u) => if u == t then Balance(log, t) + 1 else Balance(log, t)
            case Unlocking(u) => if u == t && Balance(log, t) > 0 then Balance(log, t) - 1 else Balance(log, t)
  {
    assert (log + [e])[..|log + [e]| - 1] == log;
  }

  /** What the fields say thread `t` holds. */
  function Share(f: Fields, t: nat): nat { if f.level > 0 && t == f.owner then f.level else 0 }

  /** The fields are what the history says: one thread at most holds the mutex, `level` times. */
  ghost predicate Owned(s: State) {
    forall t: nat :: Balance(s.log, t) == Share(s.f, t)
  }

  /** A free mutex with sleepers has a thread that is about to look at it. */
  ghost predicate NoLostWakeup(s: State) {
    s.f.level == 0 && (exists t :: t in s.waiting && s.waiting[t].WaitAsleep?)
    ==> exists u :: u in s.waiting && s.waiting[u].WaitAwake?
  }

  lemma OwnedAfterLock(s: State, t: nat, g: Fields)
    requires Owned(s) && g == Fields(t, Share(s.f, t) + 1)
    requires s.f.level == 0 || s.f.owner == t
    ensures forall u: nat :: Balance(s.log + [Locked(t)], u) == Share(g, u)
  {
    forall u: nat
      ensures Balance(s.log + [Locked(t)], u) == Share(g, u)
    {
      BalanceAppend(s.log, Locked(t), u);
    }
  }

  lemma OwnedAfterUnlock(s: State, t: nat)
    requires Owned(s)
    ensures forall u: nat :: Balance(s.log + [Unlocking(t)], u) == Share(Unlock(s.f, t).0, u)
  {
    forall u: nat
      ensures Balance(s.log + [Unlocking(t)], u) == Share(Unlock(s.f, t).0, u)
    {
      BalanceAppend(s.log, Unlocking(t), u);
    }
  }

  lemma OwnedStep(s: State, a: Action)
    requires Owned(s) && Enabled(s, a)
    ensures Owned(Apply(s, a))
  {
    var s' := Apply(s, a);
    if a.Release? {
      OwnedAfterUnlock(s, a.t);
    } else if s'.log != s.log {
      OwnedAfterLock(s, a.t, s'.f);
    }
  }

  lemma WakeupStep(s: State, a: Action)
    requires NoLostWakeup(s) && Enabled(s, a)
    ensures NoLostWakeup(Apply(s, a))
  {
    var s' := Apply(s, a);
    match a
    case Release(t, to) =>
      if s.f.level > 0 && PhaseOf(s, to).WaitAsleep? && s'.f.level == 0 {
        assert s'.waiting[to].WaitAwake?;
      } else if s.f.level == 0 {
        assert s'.waiting == s.waiting;
      }
    case Spurious(t) => assert s'.waiting[t].WaitAwake?;
    case _ =>
  }

  lemma {:induction false} InvRun(s: State, acts: seq<Action>)
    requires Owned(s) && NoLostWakeup(s) && Runs(s, acts)
    ensures Owned(Exec(s, acts)) && NoLostWakeup(Exec(s, acts))
    decreases |acts|
  {
    if acts != [] {
      OwnedStep(s, acts[0]);
      WakeupStep(s, acts[0]);
      InvRun(Apply(s, acts[0]), acts[1..]);
    }
  }

  predicate Initial(s: State) { s.f.level == 0 && s.waiting == map[] && s.log == [] }

  // ----- Main results -----

  /** In every state of every run, barging, trylock and spurious wake-ups included. */
  lemma SafeOnAllRuns(s: State, acts: seq<Action>)
    requires Initial(s) && Runs(s, acts)
    ensures Owned(Exec(s, acts)) && NoLostWakeup(Exec(s, acts))
  {
    InvRun(s, acts);
  }

  /** Two threads never hold the mutex at once. */
  lemma OneHolder(s: State, acts: seq<Action>, t: nat, u: nat)
    requires Initial(s) && Runs(s, acts)
    requires Balance(Exec(s, acts).log, t) > 0 && Balance(Exec(s, acts).log, u) > 0
    ensures t == u
  {
    SafeOnAllRuns(s, acts);
  }

  /** Nobody but `t` has locks that are not undone. */
  ghost predicate FreeFor(log: seq<Event>, t: nat) {
    forall u: nat :: Balance(log, u) > 0 ==> u == t
  }

  /** All locks are undone. */
  ghost predicate FreeForAll(log: seq<Event>) {
    forall u: nat :: Balance(log, u) == 0
  }

  /** `t` has one lock more, and the others have what they had. */
  ghost predicate GainsOne(before: seq<Event>, after: seq<Event>, t: nat) {
    forall u: nat :: Balance(after, u) == Balance(before, u) + if u == t then 1 else 0
  }

  /** Appending a lock of `t` to the history is all that a granted call does to it. */
  lemma LockedGains(log: seq<Event>, t: nat)
    ensures GainsOne(log, log + [Locked(t)], t)
  {
    forall u: nat
      ensures Balance(log + [Locked(t)], u) == Balance(log, u) + if u == t then 1 else 0
    {
      BalanceAppend(log, Locked(t), u);
    }
  }

  lemma FreeForIff(s: State, t: nat)
    requires Owned(s)
    ensures FreeFor(s.log, t) <==> s.f.level == 0 || s.f.owner == t
  {
    assert Balance(s.log, s.f.owner) == Share(s.f, s.f.owner);
  }

  /** In every reachable state: a lock returns at once, with one lock more, exactly when no other
      thread holds the mutex, so the owner's second lock does; otherwise the caller goes to sleep
      and nothing else changes. */
  lemma LockReturnsIff(s: State, acts: seq<Action>, t: nat)
    requires Initial(s) && Runs(s, acts) && PhaseOf(Exec(s, acts), t).Outside?
    ensures var e := Exec(s, acts); var e' := Apply(e, Lock(t));
            && (PhaseOf(e', t).Outside? <==> FreeFor(e.log, t))
            && (FreeFor(e.log, t) ==> GainsOne(e.log, e'.log, t))
            && (!FreeFor(e.log, t) ==> PhaseOf(e', t).WaitAsleep? && e'.log == e.log && e'.f == e.f)
            && forall u :: u != t ==> PhaseOf(e', u) == PhaseOf(e, u)
  {
    SafeOnAllRuns(s, acts);
    FreeForIff(Exec(s, acts), t);
    LockedGains(Exec(s, acts).log, t);
  }

  /** A trylock that finds the condition variable not busy succeeds in exactly the same cases and
      never sleeps; one that finds it busy changes nothing. */
  lemma TryLockReturnsIff(s: State, acts: seq<Action>, t: nat, busy: bool)
    requires Initial(s) && Runs(s, acts) && PhaseOf(Exec(s, acts), t).Outside?
    ensures var e := Exec(s, acts); var e' := Apply(e, Try(t, busy));
            && (!busy && FreeFor(e.log, t) ==> TryLock(e.f, t, busy).1 && GainsOne(e.log, e'.log, t))
            && (busy || !FreeFor(e.log, t) ==> !TryLock(e.f, t, busy).1 && e'.log == e.log && e'.f == e.f)
            && forall u :: PhaseOf(e', u) == PhaseOf(e, u)
  {
    SafeOnAllRuns(s, acts);
    FreeForIff(Exec(s, acts), t);
    LockedGains(Exec(s, acts).log, t);
  }

  /** A woken waiter gets the mutex exactly when nobody holds it, and else sleeps again. */
  lemma RecheckReturnsIff(s: State, acts: seq<Action>, t: nat)
    requires Initial(s) && Runs(s, acts) && PhaseOf(Exec(s, acts), t).WaitAwake?
    ensures var e := Exec(s, acts); var e' := Apply(e, Recheck(t));
            && (PhaseOf(e', t).Outside? <==> FreeForAll(e.log))
            && (FreeForAll(e.log) ==> GainsOne(e.log, e'.log, t))
            && (!FreeForAll(e.log) ==> PhaseOf(e', t).WaitAsleep? && e'.log == e.log && e'.f == e.f)
  {
    SafeOnAllRuns(s, acts);
    FreeForAllIff(Exec(s, acts));
    LockedGains(Exec(s, acts).log, t);
  }

  lemma FreeForAllIff(s: State)
    requires Owned(s)
    ensures FreeForAll(s.log) <==> s.f.level == 0
  {
    assert Balance(s.log, s.f.owner) == Share(s.f, s.f.owner);
  }

  /** In every reachable state an unlock undoes one lock of its caller, if there is one; if that was
      the last it wakes the sleeper that the signal picks, and nobody else ever. */
  lemma ReleaseWakes(s: State, acts: seq<Action>, t: nat, to: nat)
    requires Initial(s) && Runs(s, acts) && Enabled(Exec(s, acts), Release(t, to))
    ensures var e := Exec(s, acts); var e' := Apply(e, Release(t, to)); var mine := Balance(e.log, t);
            && Balance(e'.log, t) == (if mine > 0 then mine - 1 else 0)
            && (forall u :: u != t ==> Balance(e'.log, u) == Balance(e.log, u))
            && (forall u :: PhaseOf(e', u) == if u == to && mine == 1 && PhaseOf(e, u).WaitAsleep? then WaitAwake
                                              else PhaseOf(e, u))
  {
    SafeOnAllRuns(s, acts);
    var e := Exec(s, acts);
    forall u ensures Balance(Apply(e, Release(t, to)).log, u)
                     == if u == t && Balance(e.log, u) > 0 then Balance(e.log, u) - 1 else Balance(e.log, u)
    {
      BalanceAppend(e.log, Unlocking(t), u);
    }
  }

  /** An unlock acts exactly when the caller holds the mutex, and otherwise changes no field
      and wakes nobody. */
  lemma UnlockActsIffHeld(s: State, acts: seq<Action>, t: nat)
    requires Initial(s) && Runs(s, acts)
    ensures var e := Exec(s, acts); var (g, signal) := Unlock(e.f, t);
            && (Balance(e.log, t) > 0 <==> g != e.f)
            && (Balance(e.log, t) == 1 <==> signal)
            && (g != e.f ==> g.level == Balance(e.log, t) - 1)
  {
    SafeOnAllRuns(s, acts);
  }

  /** A woken waiter that finds the mutex free takes it: the wake-up is never wasted. */
  lemma FreeWithSleepersProceeds(s: State, acts: seq<Action>, sleeper: nat) returns (u: nat)
    requires Initial(s) && Runs(s, acts)
    requires Exec(s, acts).f.level == 0 && PhaseOf(Exec(s, acts), sleeper).WaitAsleep?
    ensures var e := Exec(s, acts);
            && Enabled(e, Recheck(u))
            && Apply(e, Recheck(u)).f == Fields(u, 1)
  {
    SafeOnAllRuns(s, acts);
    var e := Exec(s, acts);
    assert sleeper in e.waiting && e.waiting[sleeper].WaitAsleep?;
    u :| u in e.waiting && e.waiting[u].WaitAwake?;
  }
}
