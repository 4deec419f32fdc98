/** The permit and latch bookkeeping of `main`: a `Semaphore` of N permits and
    a `CountDownLatch` of one count per group. The dispatch loop and the
    asynchronous callbacks are modelled as events on one state; threads and
    blocking are not modelled, only which event may happen in which state. */
module Accounting {
  import opened Wrappers

  /** Where one group is in its life cycle. */
  datatype Phase =
    | Pending     // not reached by the dispatch loop yet
    | Building    // permit acquired, request being built (between `acquire` and `analyze` in the dispatch loop)
    | InFlight    // `stub.analyze` issued, no terminal callback yet
    | Done        // counted down and released

  /** One execution of `main`: the ceiling N (`maxParallelRequests`) and, per group in map
      iteration order, whether `createEventRequest` returned null. */
  datatype Config = Config(n: int, empty: seq<bool>)

  /** `next` is the loop index; `permits` and `latch` are the counters of the
      semaphore and the latch. */
  datatype State = State(phases: seq<Phase>, next: nat, permits: int, latch: int)

  datatype Event =
    | Acquire          // `semaphore.acquire()` for the next group
    | SkipEmpty        // null request: `countDown` and `release` without a call
    | Dispatch         // `stub.analyze(eventRequest, observer)`
    | Next(g: nat)     // `onNext` of group g: writes or logs, counters untouched
    | Error(g: nat)    // `onError` of group g: `countDown` and `release`
    | Completed(g: nat) // `onCompleted` of group g: `countDown` and `release`

  /** `new CountDownLatch(groupedImages.size())`, `new Semaphore(maxParallelRequests)`. */
  function Init(c: Config): State
  {
    State(seq(|c.empty|, _ => Pending), 0, c.n, |c.empty|)
  }

  /** The loop body of the previous group still holds its permit unresolved. */
  predicate IsBuilding(s: State)
  {
    0 < s.next <= |s.phases| && s.phases[s.next - 1] == Building
  }

  /** A terminal callback of group g: one `countDown`, one `release`. */
  function Terminal(s: State, g: nat): Option<State>
  {
    if g < |s.phases| && s.phases[g] == InFlight then
      Some(State(s.phases[g := Done], s.next, s.permits + 1, s.latch - 1))
    else None
  }

  /** The effect of one event, or None when it cannot happen in `s`:
      `acquire` blocks without a permit, a callback needs a call in flight. */
  function Step(c: Config, s: State, e: Event): Option<State>
  {
    match e
    case Acquire =>
      if s.next < |s.phases| && !IsBuilding(s) && s.permits > 0 then
        Some(State(s.phases[s.next := Building], s.next + 1, s.permits - 1, s.latch))
      else None
    case SkipEmpty =>
      if IsBuilding(s) && s.next - 1 < |c.empty| && c.empty[s.next - 1] then
        Some(State(s.phases[s.next - 1 := Done], s.next, s.permits + 1, s.latch - 1))
      else None
    case Dispatch =>
      if IsBuilding(s) && s.next - 1 < |c.empty| && !c.empty[s.next - 1] then
        Some(s.(phases := s.phases[s.next - 1 := InFlight]))
      else None
    case Next(g) =>
      if g < |s.phases| && s.phases[g] == InFlight then Some(s) else None
    case Error(g) => Terminal(s, g)
    case Completed(g) => Terminal(s, g)
  }

  /** The state after a sequence of events, or None if one of them cannot happen. */
  function Run(c: Config, s: State, trace: seq<Event>): Option<State>
    decreases |trace|
  {
    if |trace| == 0 then Some(s)
    else
      match Step(c, s, trace[0])
      case None => None
      case Some(s') => Run(c, s', trace[1..])
  }

  // ---------------------------------------------------------------------
  // Counting phases.

  /** The groups in phase `x`. This is `Wrappers.Count` with the selector
      `p => p == x`, written out so that the update lemmas below can name
      the phase being counted without a lambda. */
  function CountPhase(phases: seq<Phase>, x: Phase): nat
    decreases |phases|
  {
    if |phases| == 0 then 0 else (if phases[0] == x then 1 else 0) + CountPhase(phases[1..], x)
  }

  /** Groups holding a permit: being built or in flight. */
  function Held(phases: seq<Phase>): nat
  {
    CountPhase(phases, Building) + CountPhase(phases, InFlight)
  }

  lemma {:induction false} CountPhaseUpdate(phases: seq<Phase>, g: nat, y: Phase, x: Phase)
    requires g < |phases|
    ensures CountPhase(phases[g := y], x)
            == CountPhase(phases, x) - (if phases[g] == x then 1 else 0) + (if y == x then 1 else 0)
    decreases |phases|
  {
    if g > 0 {
      CountPhaseUpdate(phases[1..], g - 1, y, x);
      assert phases[g := y][1..] == phases[1..][g - 1 := y];
    }
  }

  lemma {:induction false} CountPhaseZero(phases: seq<Phase>, x: Phase)
    ensures CountPhase(phases, x) == 0 <==> forall g :: 0 <= g < |phases| ==> phases[g] != x
    decreases |phases|
  {
    if |phases| > 0 {
      CountPhaseZero(phases[1..], x);
      if forall g :: 0 <= g < |phases[1..]| ==> phases[1..][g] != x {
        forall g | 0 <= g < |phases| ensures phases[g] != x || phases[0] == x {
          if g > 0 {
            assert phases[g] == phases[1..][g - 1];
          }
        }
      }
    }
  }

  lemma {:induction false} CountPhaseBound(phases: seq<Phase>, x: Phase)
    ensures CountPhase(phases, x) <= |phases|
    ensures CountPhase(phases, x) == |phases| <==> forall g :: 0 <= g < |phases| ==> phases[g] == x
    decreases |phases|
  {
    if |phases| > 0 {
      CountPhaseBound(phases[1..], x);
      if forall g :: 0 <= g < |phases[1..]| ==> phases[1..][g] == x {
        forall g | 0 <= g < |phases| ensures phases[g] == x || phases[0] != x {
          if g > 0 {
            assert phases[g] == phases[1..][g - 1];
          }
        }
      }
    }
  }

  // ---------------------------------------------------------------------
  // The invariant.

  /** Every group before the loop index has been reached and every group from
      it on has not; only the group just acquired can be in the loop body;
      the semaphore's permits plus the permits held add up to N, a permit was
      only ever taken while one was free; the latch counts the groups not
      yet done; a group whose request was null is never in flight. */
  ghost predicate Inv(c: Config, s: State)
  {
    && |s.phases| == |c.empty|
    && s.next <= |s.phases|
    && (forall g :: 0 <= g < |s.phases| ==> (s.phases[g] == Pending <==> g >= s.next))
    && (forall g :: 0 <= g < |s.phases| && s.phases[g] == Building ==> g == s.next - 1)
    && (forall g :: 0 <= g < |s.phases| && s.phases[g] == InFlight ==> !c.empty[g])
    && s.permits == c.n - Held(s.phases)
    && (Held(s.phases) == 0 || Held(s.phases) <= c.n)
    && s.latch == |s.phases| - CountPhase(s.phases, Done)
  }

  lemma InitInv(c: Config)
    ensures Inv(c, Init(c))
  {
    var ph := Init(c).phases;
    CountPhaseZero(ph, Building);
    CountPhaseZero(ph, InFlight);
    CountPhaseZero(ph, Done);
  }

  /** Every event that can happen keeps the invariant. */
  lemma StepInv(c: Config, s: State, e: Event)
    requires Inv(c, s)
    requires Step(c, s, e).Some?
    ensures Inv(c, Step(c, s, e).value)
  {
    match e
    case Acquire => AcquireInv(c, s);
    case SkipEmpty => SkipEmptyInv(c, s);
    case Dispatch => DispatchInv(c, s);
    case Next(g) =>
    case Error(g) => ErrorInv(c, s, g);
    case Completed(g) => CompletedInv(c, s, g);
  }

  /** `acquire` moves the next group into the loop body and takes a permit. */
  lemma AcquireInv(c: Config, s: State)
    requires Inv(c, s)
    requires Step(c, s, Acquire).Some?
    ensures Inv(c, Step(c, s, Acquire).value)
  {
    var s' := Step(c, s, Acquire).value;
    var y := s'.phases[s.next];
    assert s'.phases == s.phases[s.next := y];
    CountPhaseUpdate(s.phases, s.next, y, Building);
    CountPhaseUpdate(s.phases, s.next, y, InFlight);
    CountPhaseUpdate(s.phases, s.next, y, Done);
  }

  /** A null request counts down and releases without a call. */
  lemma SkipEmptyInv(c: Config, s: State)
    requires Inv(c, s)
    requires Step(c, s, SkipEmpty).Some?
    ensures Inv(c, Step(c, s, SkipEmpty).value)
  {
    var s' := Step(c, s, SkipEmpty).value;
    var y := s'.phases[s.next - 1];
    assert s'.phases == s.phases[s.next - 1 := y];
    CountPhaseUpdate(s.phases, s.next - 1, y, Building);
    CountPhaseUpdate(s.phases, s.next - 1, y, InFlight);
    CountPhaseUpdate(s.phases, s.next - 1, y, Done);
  }

  /** `analyze` puts the group in flight, still holding its permit. */
  lemma DispatchInv(c: Config, s: State)
    requires Inv(c, s)
    requires Step(c, s, Dispatch).Some?
    ensures Inv(c, Step(c, s, Dispatch).value)
  {
    var s' := Step(c, s, Dispatch).value;
    var y := s'.phases[s.next - 1];
    assert s'.phases == s.phases[s.next - 1 := y];
    CountPhaseUpdate(s.phases, s.next - 1, y, Building);
    CountPhaseUpdate(s.phases, s.next - 1, y, InFlight);
    CountPhaseUpdate(s.phases, s.next - 1, y, Done);
  }

  /** `onError` counts down and releases. */
  lemma ErrorInv(c: Config, s: State, g: nat)
    requires Inv(c, s)
    requires Step(c, s, Error(g)).Some?
    ensures Inv(c, Step(c, s, Error(g)).value)
  {
    var s' := Step(c, s, Error(g)).value;
    var y := s'.phases[g];
    assert s'.phases == s.phases[g := y];
    CountPhaseUpdate(s.phases, g, y, Building);
    CountPhaseUpdate(s.phases, g, y, InFlight);
    CountPhaseUpdate(s.phases, g, y, Done);
  }

  /** `onCompleted` counts down and releases. */
  lemma CompletedInv(c: Config, s: State, g: nat)
    requires Inv(c, s)
    requires Step(c, s, Completed(g)).Some?
    ensures Inv(c, Step(c, s, Completed(g)).value)
  {
    var s' := Step(c, s, Completed(g)).value;
    var y := s'.phases[g];
    assert s'.phases == s.phases[g := y];
    CountPhaseUpdate(s.phases, g, y, Building);
    CountPhaseUpdate(s.phases, g, y, InFlight);
    CountPhaseUpdate(s.phases, g, y, Done);
  }

  /** The invariant holds after any sequence of events from the initial state. */
  lemma {:induction false} RunInv(c: Config, s: State, trace: seq<Event>)
    requires Inv(c, s)
    requires Run(c, s, trace).Some?
    ensures Inv(c, Run(c, s, trace).value)
    decreases |trace|
  {
    if |trace| > 0 {
      StepInv(c, s, trace[0]);
      RunInv(c, Step(c, s, trace[0]).value, trace[1..]);
    }
  }

  /** The latch is never negative and reaches zero exactly when every group
      is done, which is also after the dispatch loop has visited them all. */
  lemma LatchMeaning(c: Config, s: State)
    requires Inv(c, s)
    ensures 0 <= s.latch <= |c.empty|
    ensures s.latch == 0 <==> forall g :: 0 <= g < |s.phases| ==> s.phases[g] == Done
    ensures s.latch == 0 ==> s.next == |s.phases|
  {
    CountPhaseBound(s.phases, Done);
    assert s.next < |s.phases| ==> s.phases[s.next] == Pending;
  }

  /** Whatever order the events of a run come in: the semaphore's permits
      plus the permits held by groups being built or in flight add up to N;
      at most N groups hold a permit (none when N <= 0); the latch stays
      between zero and the number of groups and is zero exactly when every
      group is done, so `latch.await()` returns only after the loop has
      visited every group and each has been counted down; and a group whose
      request was null is never in flight, so it gets no `onNext` and writes
      no row. */
  lemma Safety(c: Config, trace: seq<Event>)
    requires Run(c, Init(c), trace).Some?
    ensures var s := Run(c, Init(c), trace).value;
            && |s.phases| == |c.empty|
            && s.permits + Held(s.phases) == c.n
            && Held(s.phases) <= (if c.n > 0 then c.n else 0)
            && 0 <= s.latch <= |c.empty|
            && (s.latch == 0 <==> forall g :: 0 <= g < |s.phases| ==> s.phases[g] == Done)
            && (s.latch == 0 ==> s.next == |c.empty|)
            && (forall g :: 0 <= g < |c.empty| && c.empty[g] ==> s.phases[g] != InFlight && Step(c, s, Next(g)).None?)
  {
    InitInv(c);
    RunInv(c, Init(c), trace);
    LatchMeaning(c, Run(c, Init(c), trace).value);
  }

  /** A group counts down once: a terminal callback is only accepted for a
      call in flight, moves it to Done, and lowers the latch by exactly one;
      after that no callback of that group is accepted. */
  lemma TerminalOnce(c: Config, s: State, g: nat)
    requires Inv(c, s)
    requires Step(c, s, Completed(g)).Some? || Step(c, s, Error(g)).Some?
    ensures var s' := Terminal(s, g).value;
            && s.latch > 0 && s'.latch == s.latch - 1 && s'.permits == s.permits + 1
            && Step(c, s', Completed(g)).None? && Step(c, s', Error(g)).None? && Step(c, s', Next(g)).None?
  {
    CountPhaseUpdate(s.phases, g, Done, Done);
    CountPhaseBound(s.phases[g := Done], Done);
  }

  // ---------------------------------------------------------------------
  // Termination of the loop and of the wait.

  lemma {:induction false} RunAppend(c: Config, s: State, t1: seq<Event>, t2: seq<Event>)
    ensures Run(c, s, t1 + t2) == (match Run(c, s, t1) case None => None case Some(s1) => Run(c, s1, t2))
    decreases |t1|
  {
    if |t1| == 0 {
      assert t1 + t2 == t2;
    } else {
      assert (t1 + t2)[0] == t1[0];
      assert (t1 + t2)[1..] == t1[1..] + t2;
      match Step(c, s, t1[0]) {
        case None =>
        case Some(s') => RunAppend(c, s', t1[1..], t2);
      }
    }
  }

  /** The events of one group when each call completes before the next acquire. */
  function GroupTrace(c: Config, g: nat): seq<Event>
    requires g < |c.empty|
  {
    if c.empty[g] then [Acquire, SkipEmpty] else [Acquire, Dispatch, Completed(g)]
  }

  function SequentialTrace(c: Config, k: nat): seq<Event>
    requires k <= |c.empty|
    decreases |c.empty| - k
  {
    if k == |c.empty| then [] else GroupTrace(c, k) + SequentialTrace(c, k + 1)
  }

  /** The state after the first k groups were handled and released. */
  function AfterGroups(c: Config, k: nat): State
    requires k <= |c.empty|
  {
    State(seq(|c.empty|, g => if g < k then Done else Pending), k, c.n, |c.empty| - k)
  }

  lemma GroupStep(c: Config, k: nat)
    requires c.n >= 1 && k < |c.empty|
    ensures Run(c, AfterGroups(c, k), GroupTrace(c, k)) == Some(AfterGroups(c, k + 1))
  {
    var s := AfterGroups(c, k);
    var s1 := Step(c, s, Acquire).value;
    assert s1.phases == s.phases[k := Building];
    var t := GroupTrace(c, k);
    assert AfterGroups(c, k + 1).phases == s.phases[k := Done];
    if c.empty[k] {
      assert t[1..] == [SkipEmpty] && t[1..][1..] == [];
      var s2 := Step(c, s1, SkipEmpty).value;
      assert s2.phases == s.phases[k := Done];
      assert s2 == AfterGroups(c, k + 1);
      assert Run(c, s1, t[1..]) == Some(s2);
    } else {
      assert t[1..] == [Dispatch, Completed(k)] && t[1..][1..] == [Completed(k)] && t[1..][1..][1..] == [];
      var s2 := Step(c, s1, Dispatch).value;
      assert s2.phases == s1.phases[k := InFlight];
      var s3 := Terminal(s2, k).value;
      assert s3.phases == s.phases[k := Done];
      assert s3 == AfterGroups(c, k + 1);
      assert Run(c, s2, t[1..][1..]) == Some(s3);
      assert Run(c, s1, t[1..]) == Some(s3);
    }
  }

  lemma {:induction false} SequentialFrom(c: Config, k: nat)
    requires c.n >= 1 && k <= |c.empty|
    ensures Run(c, AfterGroups(c, k), SequentialTrace(c, k)) == Some(AfterGroups(c, |c.empty|))
    decreases |c.empty| - k
  {
    if k < |c.empty| {
      GroupStep(c, k);
      SequentialFrom(c, k + 1);
      RunAppend(c, AfterGroups(c, k), GroupTrace(c, k), SequentialTrace(c, k + 1));
    }
  }

  /** With N >= 1 the dispatch loop cannot block forever on `acquire`: if each
      call ends before the next acquire, every group is visited, the latch
      reaches zero and all N permits are back. */
  lemma SequentialScheduleFinishes(c: Config)
    requires c.n >= 1
    ensures Run(c, Init(c), SequentialTrace(c, 0)).Some?
    ensures var s := Run(c, Init(c), SequentialTrace(c, 0)).value;
            s.latch == 0 && s.permits == c.n && s.next == |c.empty|
            && forall g :: 0 <= g < |s.phases| ==> s.phases[g] == Done
  {
    assert AfterGroups(c, 0) == Init(c);
    SequentialFrom(c, 0);
  }

  /** With N <= 0 (`Integer.parseInt` accepts it) and at least one group, no
      event can happen at all: the loop blocks on its first `acquire` and the
      latch stays at the number of groups. */
  lemma NonPositiveCeilingBlocks(c: Config, trace: seq<Event>)
    requires c.n <= 0 && |c.empty| > 0
    requires Run(c, Init(c), trace).Some?
    ensures trace == [] && Run(c, Init(c), trace).value.latch == |c.empty|
  {
  }
}
