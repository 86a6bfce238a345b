/** The confirmation guard: global enabling, thread-local scopes, and revocation by epoch, over all interleavings. */
module Guards {
  /** One thread's scope variables. */
  datatype Local = Local(depth: int, epoch: int)

  const NOTHING := Local(0, -1)

  /** Entering a scope that captured `epoch`: a count left over from another epoch is dropped. */
  function Push(local: Local, epoch: nat): Local {
    var depth := if local.depth != 0 && local.epoch != epoch then 0 else local.depth;
    Local(depth + 1, epoch)
  }

  /** Leaving a scope that captured `epoch`: only a count of that epoch is touched. */
  function Pop(local: Local, epoch: nat): Local {
    if local.epoch == epoch && local.depth > 0 then
      if local.depth == 1 then NOTHING else Local(local.depth - 1, epoch)
    else local
  }

  predicate Scoped(local: Local, epoch: nat) {
    local.depth > 0 && local.epoch == epoch
  }

  // ---- all interleavings

  /** Where a thread stands between two of its atomic steps. `Checking` also records the truth at the moment of
      the read. */
  datatype Phase = Idle | Entering(captured: nat) | Checking(globally: bool, at: nat, truth: bool)

  /** A thread: its variables, the epochs of the scopes it has open (outermost first), and its phase. */
  datatype Thread = Thread(local: Local, scopes: seq<nat>, phase: Phase)

  datatype System = System(enabled: bool, epoch: nat, threads: seq<Thread>)

  datatype Action =
    | Enable
    | Disable
    | ReadEpoch(t: nat)
    | PushScope(t: nat)
    | PopScope(t: nat)
    | ReadFlags(t: nat)
    | Answer(t: nat)

  predicate CanStep(s: System, a: Action) {
    match a
    case Enable => true
    case Disable => true
    case ReadEpoch(t) => t < |s.threads| && s.threads[t].phase.Idle?
    case PushScope(t) => t < |s.threads| && s.threads[t].phase.Entering?
    case PopScope(t) => t < |s.threads| && s.threads[t].phase.Idle? && s.threads[t].scopes != []
    case ReadFlags(t) => t < |s.threads| && s.threads[t].phase.Idle?
    case Answer(t) => t < |s.threads| && s.threads[t].phase.Checking?
  }

  ghost function Step(s: System, a: Action): System
    requires CanStep(s, a)
  {
    match a
    case Enable => s.(enabled := true)
    case Disable => s.(enabled := false, epoch := s.epoch + 1)
    case ReadEpoch(t) => s.(threads := s.threads[t := s.threads[t].(phase := Entering(s.epoch))])
    case PushScope(t) =>
      var th := s.threads[t];
      var e := th.phase.captured;
      s.(threads := s.threads[t := Thread(Push(th.local, e), th.scopes + [e], Idle)])
    case PopScope(t) =>
      var th := s.threads[t];
      var top := th.scopes[|th.scopes| - 1];
      s.(threads := s.threads[t := Thread(Pop(th.local, top), th.scopes[..|th.scopes| - 1], Idle)])
    case ReadFlags(t) =>
      s.(threads := s.threads[t := s.threads[t].(phase := Checking(s.enabled, s.epoch, Permitted(s, t)))])
    case Answer(t) => s.(threads := s.threads[t := s.threads[t].(phase := Idle)])
  }

  /** The specification: enabled for everyone, or by an open scope of the current epoch on this thread. */
  ghost predicate Permitted(s: System, t: nat)
    requires t < |s.threads|
  {
    s.enabled || s.epoch in s.threads[t].scopes
  }

  /** What the thread computes from the flags it read and from its own variables. */
  predicate Answered(th: Thread)
    requires th.phase.Checking?
  {
    th.phase.globally || Scoped(th.local, th.phase.at)
  }

  function Initial(n: nat): System {
    System(false, 0, seq(n, i => Thread(NOTHING, [], Idle)))
  }

  ghost predicate CanRun(s: System, actions: seq<Action>)
    decreases |actions|
  {
    actions == [] || (CanStep(s, actions[0]) && CanRun(Step(s, actions[0]), actions[1..]))
  }

  ghost function Run(s: System, actions: seq<Action>): System
    requires CanRun(s, actions)
    decreases |actions|
  {
    if actions == [] then s else Run(Step(s, actions[0]), actions[1..])
  }

  function Count(scopes: seq<nat>, e: int): nat {
    if scopes == [] then 0
    else Count(scopes[..|scopes| - 1], e) + if scopes[|scopes| - 1] == e then 1 else 0
  }

  lemma {:induction false} CountZero(scopes: seq<nat>, e: int)
    ensures Count(scopes, e) == 0 <==> e !in scopes
  {
    if scopes != [] {
      var front := scopes[..|scopes| - 1];
      CountZero(front, e);
      assert scopes == front + [scopes[|scopes| - 1]];
    }
  }

  ghost predicate Sorted(scopes: seq<nat>) {
    forall i, j | 0 <= i < j < |scopes| :: scopes[i] <= scopes[j]
  }

  /** The variables count the scopes of the newest epoch that still has one, and forget the rest. */
  ghost predicate ThreadOk(th: Thread, epoch: nat) {
    && Sorted(th.scopes)
    && (forall e | e in th.scopes :: e <= epoch)
    && (th.local.depth > 0 ==>
          && th.scopes != [] && th.local.epoch == th.scopes[|th.scopes| - 1]
          && th.local.depth == Count(th.scopes, th.local.epoch))
    && (th.local.depth <= 0 ==> th.local == NOTHING && epoch !in th.scopes)
    && (th.phase.Entering? ==>
          && th.phase.captured <= epoch
          && (forall e | e in th.scopes :: e <= th.phase.captured)
          && (th.local.depth == 0 ==> th.phase.captured !in th.scopes))
    && (th.phase.Checking? ==> (th.phase.truth <==> Answered(th)))
  }

  ghost predicate Inv(s: System) {
    forall t | 0 <= t < |s.threads| :: ThreadOk(s.threads[t], s.epoch)
  }

  /** Under the invariant the variables of a thread decide exactly whether it has a scope of the current epoch. */
  lemma ScopedIff(th: Thread, epoch: nat)
    requires ThreadOk(th, epoch)
    ensures Scoped(th.local, epoch) <==> epoch in th.scopes
  {
    if epoch in th.scopes {
      var i :| 0 <= i < |th.scopes| && th.scopes[i] == epoch;
      assert th.scopes[|th.scopes| - 1] in th.scopes;
    }
  }

  lemma PushOk(th: Thread, epoch: nat)
    requires ThreadOk(th, epoch) && th.phase.Entering?
    ensures ThreadOk(Thread(Push(th.local, th.phase.captured), th.scopes + [th.phase.captured], Idle), epoch)
  {
    var e := th.phase.captured;
    var scopes := th.scopes + [e];
    assert scopes[..|scopes| - 1] == th.scopes;
    assert Sorted(scopes) by {
      forall i | 0 <= i < |th.scopes| ensures th.scopes[i] <= e {
        assert th.scopes[i] in th.scopes;
      }
    }
    CountZero(th.scopes, e);
    if th.local.depth > 0 && th.local.epoch != e {
      assert th.scopes[|th.scopes| - 1] in th.scopes;
      assert e !in th.scopes;
    }
  }

  lemma PopOk(th: Thread, epoch: nat)
    requires ThreadOk(th, epoch) && th.scopes != []
    ensures var top := th.scopes[|th.scopes| - 1];
            ThreadOk(Thread(Pop(th.local, top), th.scopes[..|th.scopes| - 1], Idle), epoch)
  {
    var top, front := th.scopes[|th.scopes| - 1], th.scopes[..|th.scopes| - 1];
    assert top in th.scopes && forall e | e in front :: e in th.scopes;
    CountZero(front, top);
    if th.local.depth > 1 {
      assert top in front;
      var i :| 0 <= i < |front| && front[i] == top;
      assert front[|front| - 1] == th.scopes[|front| - 1];
    } else if th.local.depth == 1 {
      assert top !in front;
      assert forall i | 0 <= i < |front| :: front[i] == th.scopes[i];
      assert forall e | e in front :: e <= top;
    }
  }

  lemma StepOk(s: System, a: Action)
    requires Inv(s) && CanStep(s, a)
    ensures Inv(Step(s, a))
  {
    match a
    case Enable =>
    case Disable =>
      forall t | 0 <= t < |s.threads|
        ensures ThreadOk(s.threads[t], s.epoch + 1)
      {
        assert ThreadOk(s.threads[t], s.epoch);
      }
    case ReadEpoch(t) =>
      assert ThreadOk(s.threads[t], s.epoch);
    case PushScope(t) => PushOk(s.threads[t], s.epoch);
    case PopScope(t) => PopOk(s.threads[t], s.epoch);
    case ReadFlags(t) => ScopedIff(s.threads[t], s.epoch);
    case Answer(t) =>
      assert ThreadOk(s.threads[t], s.epoch);
  }

  lemma {:induction false} RunOk(s: System, actions: seq<Action>)
    requires Inv(s) && CanRun(s, actions)
    ensures Inv(Run(s, actions))
    decreases |actions|
  {
    if actions != [] {
      StepOk(s, actions[0]);
      RunOk(Step(s, actions[0]), actions[1..]);
    }
  }

  /** Over every interleaving of any number of threads: the answer a thread computes is the truth at its atomic read. */
  lemma AnswersAreTrue(n: nat, actions: seq<Action>, t: nat)
    requires CanRun(Initial(n), actions)
    requires t < |Run(Initial(n), actions).threads| && Run(Initial(n), actions).threads[t].phase.Checking?
    ensures Answered(Run(Initial(n), actions).threads[t]) <==> Run(Initial(n), actions).threads[t].phase.truth
  {
    RunOk(Initial(n), actions);
  }

  /** At every moment a check started now would answer exactly what the specification permits. */
  lemma CheckIsPermission(n: nat, actions: seq<Action>, t: nat)
    requires CanRun(Initial(n), actions) && t < |Run(Initial(n), actions).threads|
    ensures var s := Run(Initial(n), actions);
            Permitted(s, t) <==> s.enabled || Scoped(s.threads[t].local, s.epoch)
  {
    RunOk(Initial(n), actions);
    var s := Run(Initial(n), actions);
    ScopedIff(s.threads[t], s.epoch);
  }

  // ---- revocation

  /** Thread `t` neither captures a new epoch nor is enabled globally. */
  predicate NoRenewal(actions: seq<Action>, t: nat) {
    forall a | a in actions :: a != Enable && a != ReadEpoch(t)
  }

  ghost predicate Revoked(s: System, t: nat, epoch: nat) {
    && t < |s.threads| && !s.enabled && epoch <= s.epoch
    && (forall e | e in s.threads[t].scopes :: e < epoch)
    && (s.threads[t].phase.Entering? ==> s.threads[t].phase.captured < epoch)
  }

  lemma RevokedStep(s: System, a: Action, t: nat, epoch: nat)
    requires Revoked(s, t, epoch) && CanStep(s, a) && a != Enable && a != ReadEpoch(t)
    ensures Revoked(Step(s, a), t, epoch)
  {
    var before, after := s.threads[t].scopes, Step(s, a).threads[t].scopes;
    forall e | e in after
      ensures e < epoch
    {
      if a == PushScope(t) {
        assert e in before || e == s.threads[t].phase.captured;
      } else {
        assert e in before;
      }
    }
  }

  lemma {:induction false} RevokedStays(s: System, actions: seq<Action>, t: nat, epoch: nat)
    requires Revoked(s, t, epoch) && CanRun(s, actions) && NoRenewal(actions, t)
    ensures Revoked(Run(s, actions), t, epoch)
    decreases |actions|
  {
    if actions != [] {
      var a := actions[0];
      assert a in actions && forall b | b in actions[1..] :: b in actions;
      RevokedStep(s, a, t, epoch);
      RevokedStays(Step(s, a), actions[1..], t, epoch);
    }
  }

  /** After `disable`, whatever the threads do, a thread that does not enter a new scope is not permitted again
      until someone enables globally: scopes moments before, and scopes half entered before, are revoked for good. */
  lemma DisableRevokes(n: nat, before: seq<Action>, after: seq<Action>, t: nat)
    requires CanRun(Initial(n), before + [Disable] + after) && t < n
    requires NoRenewal(after, t)
    ensures |Run(Initial(n), before + [Disable] + after).threads| == n
    ensures !Permitted(Run(Initial(n), before + [Disable] + after), t)
  {
    RunSplit(Initial(n), before + [Disable], after);
    RunSplit(Initial(n), before, [Disable]);
    var s := Run(Initial(n), before);
    RunOk(Initial(n), before);
    RunKeepsThreads(Initial(n), before);
    var d := Step(s, Disable);
    assert [Disable][1..] == [];
    assert Run(Initial(n), before + [Disable]) == Run(s, [Disable]) == Run(d, []) == d;
    assert ThreadOk(s.threads[t], s.epoch);
    RevokedStays(d, after, t, d.epoch);
    RunKeepsThreads(d, after);
  }

  lemma {:induction false} RunKeepsThreads(s: System, actions: seq<Action>)
    requires CanRun(s, actions)
    ensures |Run(s, actions).threads| == |s.threads|
    decreases |actions|
  {
    if actions != [] {
      RunKeepsThreads(Step(s, actions[0]), actions[1..]);
    }
  }

  lemma {:induction false} RunSplit(s: System, a: seq<Action>, b: seq<Action>)
    requires CanRun(s, a + b)
    ensures CanRun(s, a) && CanRun(Run(s, a), b) && Run(s, a + b) == Run(Run(s, a), b)
    decreases |a|
  {
    if a == [] {
      assert a + b == b;
    } else {
      assert (a + b)[1..] == a[1..] + b;
      RunSplit(Step(s, a[0]), a[1..], b);
    }
  }

  // ---- what the history of a run permits

  function Disables(actions: seq<Action>): nat {
    if actions == [] then 0
    else Disables(actions[..|actions| - 1]) + if actions[|actions| - 1] == Disable then 1 else 0
  }

  /** Enabled globally, with no disable since. */
  predicate EnabledBy(actions: seq<Action>) {
    exists i | 0 <= i < |actions| :: actions[i] == Enable && Disable !in actions[i..]
  }

  /** When the thread last read the epoch for a scope. */
  function LastRead(actions: seq<Action>, t: nat): (i: nat)
    ensures i <= |actions|
  {
    if actions == [] then 0
    else
      var last := |actions| - 1;
      if actions[last] == ReadEpoch(t) then last else LastRead(actions[..last], t)
  }

  /** The scopes the thread has open, outermost first, each by the moment at which it read the epoch. */
  function Opened(actions: seq<Action>, t: nat): (moments: seq<nat>)
    ensures forall k | 0 <= k < |moments| :: moments[k] <= |actions|
  {
    if actions == [] then []
    else
      var front, last := actions[..|actions| - 1], actions[|actions| - 1];
      var before := Opened(front, t);
      if last == PushScope(t) then before + [LastRead(front, t)]
      else if last == PopScope(t) && before != [] then before[..|before| - 1]
      else before
  }

  lemma RunLast(s: System, actions: seq<Action>)
    requires actions != [] && CanRun(s, actions)
    ensures var front, last := actions[..|actions| - 1], actions[|actions| - 1];
            CanRun(s, front) && CanStep(Run(s, front), last) && Run(s, actions) == Step(Run(s, front), last)
  {
    var front, last := actions[..|actions| - 1], actions[|actions| - 1];
    assert actions == front + [last] && [last][1..] == [];
    RunSplit(s, front, [last]);
    assert CanRun(Run(s, front), [last]) && Run(Run(s, front), [last]) == Run(Step(Run(s, front), last), []);
  }

  lemma SinceNext(actions: seq<Action>, i: nat)
    requires i < |actions|
    ensures var front, last := actions[..|actions| - 1], actions[|actions| - 1];
            Disable !in actions[i..] <==> last != Disable && Disable !in front[i..]
  {
    assert actions[i..] == actions[..|actions| - 1][i..] + [actions[|actions| - 1]];
  }

  lemma EnabledByNext(actions: seq<Action>)
    requires actions != []
    ensures var front, last := actions[..|actions| - 1], actions[|actions| - 1];
            EnabledBy(actions) <==> last == Enable || (EnabledBy(front) && last != Disable)
  {
    var n := |actions| - 1;
    var front, last := actions[..n], actions[n];
    forall i | 0 <= i < |actions|
      ensures Disable !in actions[i..] <==> last != Disable && Disable !in front[i..]
    {
      SinceNext(actions, i);
    }
    assert front[n..] == [] && forall i | 0 <= i < n :: front[i] == actions[i];
    if EnabledBy(actions) && last != Enable {
      var i :| 0 <= i < |actions| && actions[i] == Enable && Disable !in actions[i..];
      assert front[i] == Enable;
    }
    if last == Enable {
      assert actions[n] == Enable;
    } else if EnabledBy(front) && last != Disable {
      var i :| 0 <= i < |front| && front[i] == Enable && Disable !in front[i..];
      assert actions[i] == Enable;
    }
  }

  lemma {:induction false} DisablesSince(actions: seq<Action>, i: nat)
    requires i <= |actions|
    ensures Disables(actions[..i]) <= Disables(actions)
    ensures Disables(actions[..i]) == Disables(actions) <==> Disable !in actions[i..]
    decreases |actions|
  {
    if i == |actions| {
      assert actions[..i] == actions && actions[i..] == [];
    } else {
      var n := |actions| - 1;
      var front := actions[..n];
      DisablesSince(front, i);
      assert front[..i] == actions[..i] && actions[i..] == front[i..] + [actions[n]];
    }
  }

  /** The epoch after the first `i` steps. */
  function EpochAt(actions: seq<Action>, i: nat): nat {
    if i <= |actions| then Disables(actions[..i]) else Disables(actions)
  }

  lemma EpochAtNext(actions: seq<Action>)
    requires actions != []
    ensures forall i: nat | i < |actions| :: EpochAt(actions, i) == EpochAt(actions[..|actions| - 1], i)
    ensures EpochAt(actions, |actions| - 1) == Disables(actions[..|actions| - 1])
  {
    var front := actions[..|actions| - 1];
    forall i: nat | i < |actions|
      ensures EpochAt(actions, i) == EpochAt(front, i)
    {
      assert actions[..i] == front[..i];
    }
    assert front[..|front|] == front;
  }

  /** The run's state, thread by thread, is what the history says. */
  ghost predicate Recorded(s: System, actions: seq<Action>, t: nat) {
    && t < |s.threads| && s.epoch == Disables(actions) && (s.enabled <==> EnabledBy(actions))
    && var th, moments := s.threads[t], Opened(actions, t);
       && |th.scopes| == |moments|
       && (forall k | 0 <= k < |moments| :: th.scopes[k] == EpochAt(actions, moments[k]))
       && (th.phase.Entering? ==> th.phase.captured == EpochAt(actions, LastRead(actions, t)))
  }

  lemma {:induction false} HistoryTells(n: nat, actions: seq<Action>, t: nat)
    requires CanRun(Initial(n), actions) && t < n
    ensures Recorded(Run(Initial(n), actions), actions, t)
    decreases |actions|
  {
    if actions != [] {
      RunLast(Initial(n), actions);
      var front, last := actions[..|actions| - 1], actions[|actions| - 1];
      HistoryTells(n, front, t);
      EnabledByNext(actions);
      hide EnabledBy, CanRun, Run;
      RecordedStep(Run(Initial(n), front), actions, t);
    }
  }

  lemma RecordedStep(s: System, actions: seq<Action>, t: nat)
    requires actions != [] && Recorded(s, actions[..|actions| - 1], t) && CanStep(s, actions[|actions| - 1])
    requires var front, last := actions[..|actions| - 1], actions[|actions| - 1];
             EnabledBy(actions) <==> last == Enable || (EnabledBy(front) && last != Disable)
    ensures Recorded(Step(s, actions[|actions| - 1]), actions, t)
  {
    hide EnabledBy, EpochAt, Push, Pop;
    EpochAtNext(actions);
    var front, last := actions[..|actions| - 1], actions[|actions| - 1];
    var before, after := Opened(front, t), Opened(actions, t);
    assert forall i | i in before :: i < |actions|;
    assert forall k | 0 <= k < |before| :: before[k] in before;
    hide Permitted;
    if last == ReadEpoch(t) {
      assert after == before && LastRead(actions, t) == |front|;
    } else if last == PushScope(t) {
      assert after == before + [LastRead(front, t)];
    } else if last == PopScope(t) {
      assert after == before[..|before| - 1];
    } else {
      assert after == before && LastRead(actions, t) == LastRead(front, t);
      assert last.ReadEpoch? || last.PushScope? || last.PopScope? || last.ReadFlags? || last.Answer? ==>
          last.t == t || Step(s, last).threads[t] == s.threads[t];
    }
  }

  /** Over every interleaving, exactly whom the guard permits: everyone while it was enabled and not disabled since, and
      a thread with an open scope whose epoch was read with no disable since. */
  lemma PermittedIff(n: nat, actions: seq<Action>, t: nat)
    requires CanRun(Initial(n), actions) && t < n
    ensures |Run(Initial(n), actions).threads| == n
    ensures Permitted(Run(Initial(n), actions), t) <==>
            EnabledBy(actions) || exists i :: i in Opened(actions, t) && Disable !in actions[i..]
  {
    HistoryTells(n, actions, t);
    RunKeepsThreads(Initial(n), actions);
    var s := Run(Initial(n), actions);
    hide EnabledBy, Run, CanRun, Opened, EpochAt, LastRead;
    CurrentScope(s.threads[t].scopes, Opened(actions, t), actions);
  }

  lemma CurrentScope(scopes: seq<nat>, moments: seq<nat>, actions: seq<Action>)
    requires |scopes| == |moments|
    requires forall k | 0 <= k < |moments| :: moments[k] <= |actions| && scopes[k] == EpochAt(actions, moments[k])
    ensures forall i | i in moments :: i <= |actions|
    ensures Disables(actions) in scopes <==> exists i :: i in moments && Disable !in actions[i..]
  {
    forall k | 0 <= k < |moments|
      ensures scopes[k] == Disables(actions) <==> Disable !in actions[moments[k]..]
    {
      DisablesSince(actions, moments[k]);
    }
    hide EpochAt, Disables;
    if k :| 0 <= k < |scopes| && scopes[k] == Disables(actions) {
      assert moments[k] in moments;
    }
    if i :| i in moments && Disable !in actions[i..] {
      var k :| 0 <= k < |moments| && moments[k] == i;
      assert scopes[k] in scopes;
    }
  }

  /** Enabling grants permission to every thread until the next disable. */
  lemma EnableGrants(n: nat, before: seq<Action>, after: seq<Action>, t: nat)
    requires CanRun(Initial(n), before + [Enable] + after) && t < n && Disable !in after
    ensures |Run(Initial(n), before + [Enable] + after).threads| == n
    ensures Permitted(Run(Initial(n), before + [Enable] + after), t)
  {
    hide *;
    EnabledSince(before, after);
    PermittedIff(n, before + [Enable] + after, t);
  }

  lemma EnabledSince(before: seq<Action>, after: seq<Action>)
    requires Disable !in after
    ensures EnabledBy(before + [Enable] + after)
  {
    var actions := before + [Enable] + after;
    assert actions[|before|] == Enable && actions[|before|..] == [Enable] + after;
  }

  /** The thread has left no more scopes than it has entered, at any moment. */
  ghost predicate NeverBelow(actions: seq<Action>, t: nat) {
    forall k | 0 <= k <= |actions| :: Depth(actions[..k], t) >= 0
  }

  function Depth(actions: seq<Action>, t: nat): int {
    if actions == [] then 0
    else
      var last := actions[|actions| - 1];
      Depth(actions[..|actions| - 1], t) + (if last == PushScope(t) then 1 else if last == PopScope(t) then -1 else 0)
  }

  /** What was open stays open underneath, as long as no more is left than was entered since. */
  lemma {:induction false} StaysOpened(base: seq<Action>, after: seq<Action>, t: nat)
    requires NeverBelow(after, t)
    ensures |Opened(base + after, t)| == |Opened(base, t)| + Depth(after, t)
    ensures Opened(base, t) <= Opened(base + after, t)
    decreases |after|
  {
    assert after[..|after|] == after && Depth(after, t) >= 0;
    if after == [] {
      assert base + after == base;
    } else {
      var front := after[..|after| - 1];
      assert (base + after)[..|base + after| - 1] == base + front;
      forall k | 0 <= k <= |front| ensures Depth(front[..k], t) >= 0 {
        assert front[..k] == after[..k];
      }
      StaysOpened(base, front, t);
    }
  }

  /** A scope grants permission to its thread from entering it until it is left or the guard is disabled. */
  lemma ScopeGrants(n: nat, before: seq<Action>, between: seq<Action>, after: seq<Action>, t: nat)
    requires CanRun(Initial(n), before + [ReadEpoch(t)] + between + [PushScope(t)] + after) && t < n
    requires ReadEpoch(t) !in between && Disable !in between && Disable !in after && NeverBelow(after, t)
    ensures var actions := before + [ReadEpoch(t)] + between + [PushScope(t)] + after;
            |Run(Initial(n), actions).threads| == n && Permitted(Run(Initial(n), actions), t)
  {
    var base := before + [ReadEpoch(t)] + between;
    var actions := base + [PushScope(t)] + after;
    hide Run, CanRun, NeverBelow;
    LastReadOf(before, between, t);
    assert (base + [PushScope(t)])[..|base|] == base;
    assert |before| in Opened(base + [PushScope(t)], t);
    StaysOpened(base + [PushScope(t)], after, t);
    var k :| 0 <= k < |Opened(base + [PushScope(t)], t)| && Opened(base + [PushScope(t)], t)[k] == |before|;
    assert Opened(actions, t)[k] == |before|;
    assert actions[|before|..] == [ReadEpoch(t)] + between + [PushScope(t)] + after;
    assert Disable !in actions[|before|..];
    PermittedIff(n, actions, t);
  }

  lemma {:induction false} LastReadOf(before: seq<Action>, between: seq<Action>, t: nat)
    requires ReadEpoch(t) !in between
    ensures LastRead(before + [ReadEpoch(t)] + between, t) == |before|
    decreases |between|
  {
    var actions := before + [ReadEpoch(t)] + between;
    if between == [] {
      assert actions == before + [ReadEpoch(t)];
    } else {
      var front := between[..|between| - 1];
      assert between[|between| - 1] in between && forall a | a in front :: a in between;
      assert actions[..|actions| - 1] == before + [ReadEpoch(t)] + front;
      LastReadOf(before, front, t);
    }
  }

  // ---- the object

  /** The guard, shared by the threads of `system`. Every method is one atomic step of one of them; what the
      threads hold in hand between two steps is part of their phase. */
  class ConfirmationGuard {
    const phrase: string
    var enabled: bool
    var epoch: nat
    /** The thread-local variables of every thread that has any. */
    var locals: map<nat, Local>
    ghost var system: System

    ghost predicate Valid()
      reads this
    {
      && Inv(system) && enabled == system.enabled && epoch == system.epoch
      && (forall t | 0 <= t < |system.threads| :: LocalOf(t) == system.threads[t].local)
    }

    function LocalOf(thread: nat): Local
      reads this
    {
      if thread in locals then locals[thread] else NOTHING
    }

    constructor (phrase: string, ghost threads: nat)
      requires phrase != ""
      ensures Valid() && this.phrase == phrase && system == Initial(threads)
    {
      this.phrase := phrase;
      enabled, epoch, locals, system := false, 0, map[], Initial(threads);
    }

    method Enable(phrase: string) returns (ok: bool)
      requires Valid()
      modifies this
      ensures Valid() && (ok <==> phrase == this.phrase)
      ensures system == if ok then Step(old(system), Action.Enable) else old(system)
    {
      if phrase != this.phrase { return false; }
      StepOk(system, Action.Enable);
      system := Step(system, Action.Enable);
      enabled := true;
      ok := true;
    }

    method Disable()
      requires Valid()
      modifies this
      ensures Valid() && system == Step(old(system), Action.Disable)
    {
      StepOk(system, Action.Disable);
      system := Step(system, Action.Disable);
      enabled := false;
      epoch := epoch + 1;
    }

    /** The read of a check under the lock; the thread evaluates its own variables later. */
    method ReadFlags(thread: nat) returns (globally: bool, at: nat)
      requires Valid() && CanStep(system, Action.ReadFlags(thread))
      modifies this
      ensures Valid() && system == Step(old(system), Action.ReadFlags(thread))
      ensures system.threads[thread].phase == Checking(globally, at, Permitted(old(system), thread))
    {
      StepOk(system, Action.ReadFlags(thread));
      system := Step(system, Action.ReadFlags(thread));
      globally, at := enabled, epoch;
    }

    /** The rest of a check: whatever other threads have done since, it answers what was permitted at its read. */
    method Answer(thread: nat, globally: bool, at: nat) returns (allowed: bool)
      requires Valid() && CanStep(system, Action.Answer(thread))
      requires system.threads[thread].phase.globally == globally && system.threads[thread].phase.at == at
      modifies this`system
      ensures Valid() && system == Step(old(system), Action.Answer(thread))
      ensures allowed <==> old(system).threads[thread].phase.truth
    {
      assert ThreadOk(system.threads[thread], epoch) && LocalOf(thread) == system.threads[thread].local;
      StepOk(system, Action.Answer(thread));
      system := Step(system, Action.Answer(thread));
      var local := if thread in locals then locals[thread] else NOTHING;
      allowed := globally || (local.depth > 0 && local.epoch == at);
    }

    /** The start of a scope: the phrase is checked, and the epoch captured under the lock. */
    method BeginScope(thread: nat, phrase: string) returns (ok: bool, captured: nat)
      requires Valid() && CanStep(system, ReadEpoch(thread))
      modifies this
      ensures Valid() && (ok <==> phrase == this.phrase)
      ensures system == if ok then Step(old(system), ReadEpoch(thread)) else old(system)
      ensures ok ==> system.threads[thread].phase == Entering(captured)
    {
      captured := epoch;
      if phrase != this.phrase { return false, captured; }
      StepOk(system, ReadEpoch(thread));
      system := Step(system, ReadEpoch(thread));
      ok := true;
    }

    method EnterScope(thread: nat, captured: nat)
      requires Valid() && CanStep(system, PushScope(thread)) && system.threads[thread].phase == Entering(captured)
      modifies this
      ensures Valid() && system == Step(old(system), PushScope(thread))
    {
      assert LocalOf(thread) == system.threads[thread].local;
      StepOk(system, PushScope(thread));
      system := Step(system, PushScope(thread));
      var local := if thread in locals then locals[thread] else NOTHING;
      var depth := local.depth;
      if depth != 0 && local.epoch != captured {
        depth := 0;
      }
      locals := locals[thread := Local(depth + 1, captured)];
    }

    /** Leaving the innermost scope of the thread, which captured `captured`. */
    method LeaveScope(thread: nat, captured: nat)
      requires Valid() && CanStep(system, PopScope(thread))
      requires system.threads[thread].scopes[|system.threads[thread].scopes| - 1] == captured
      modifies this
      ensures Valid() && system == Step(old(system), PopScope(thread))
    {
      assert LocalOf(thread) == system.threads[thread].local;
      StepOk(system, PopScope(thread));
      system := Step(system, PopScope(thread));
      var local := if thread in locals then locals[thread] else NOTHING;
      if local.epoch == captured && local.depth > 0 {
        var depth := local.depth - 1;
        locals := locals[thread := Local(depth, if depth == 0 then -1 else captured)];
      }
    }
  }
}
