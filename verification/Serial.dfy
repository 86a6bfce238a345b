/** The wire log of any number of threads is one of whole operations one after another. */
module Serial {
  import opened Scripts
  import opened WireLogs

  // ---- a script run alone

  /** What a run came to: what it put on the wire, the ids after it, and whether it raised. */
  datatype End = End(log: seq<Event>, ids: Ids, fails: bool)

  function Joined(a: End, b: End): End {
    End(a.log + b.log, b.ids, b.fails)
  }

  /** Run alone from the ids `c`, the script may end like this. */
  ghost predicate Runs(script: Script, c: Ids, end: End)
    decreases script, 1
  {
    || end == End([], c, true)
    || match script
       case Skip => end == End([], c, false)
       case TakeId => end == End([], Ids(c.used + 1, c.used + 1), false)
       case Emit(traffic) => end == End([EventOf(traffic, c.mine)], c, false)
       case With(_, body) => Runs(body, c, end)
       case Then(_, _) => exists a, b :: RunsInTurn(script, c, a, b, end)
       case Try(_, _, _) => exists a, b :: RunsGuarded(script, c, a, b, end)
  }

  ghost predicate RunsInTurn(script: Script, c: Ids, a: End, b: End, end: End)
    requires script.Then?
    decreases script, 0
  {
    Runs(script.first, c, a) && if a.fails then end == a else Runs(script.second, a.ids, b) && end == Joined(a, b)
  }

  ghost predicate RunsGuarded(script: Script, c: Ids, a: End, b: End, end: End)
    requires script.Try?
    decreases script, 0
  {
    && Runs(script.body, c, a)
    && if a.fails
       then Runs(script.handler, a.ids, b) && end == Joined(a, b.(fails := b.fails || script.rethrow))
       else end == a
  }

  // ---- what a thread has left to do, run alone

  ghost predicate FrameRuns(frame: Frame, raising: bool, c: Ids, end: End) {
    match frame
    case Release(_) => end == End([], c, raising)
    case Rethrow => end == End([], c, true)
    case Handler(h, rethrow) =>
      if raising then exists a :: Runs(h, c, a) && end == a.(fails := a.fails || rethrow) else end == End([], c, false)
    case Do(script) => if raising then end == End([], c, true) else Runs(script, c, end)
  }

  ghost predicate FramesRun(frames: seq<Frame>, raising: bool, c: Ids, end: End)
    decreases |frames|, 1
  {
    if frames == [] then end == End([], c, raising)
    else exists a, b :: FirstThenRest(frames, raising, c, a, b, end)
  }

  ghost predicate FirstThenRest(frames: seq<Frame>, raising: bool, c: Ids, a: End, b: End, end: End)
    requires frames != []
    decreases |frames|, 0
  {
    FrameRuns(frames[0], raising, c, a) && FramesRun(frames[1..], a.fails, a.ids, b) && end == Joined(a, b)
  }

  lemma Push(frame: Frame, rest: seq<Frame>, raising: bool, c: Ids, a: End, b: End)
    requires FrameRuns(frame, raising, c, a) && FramesRun(rest, a.fails, a.ids, b)
    ensures FramesRun([frame] + rest, raising, c, Joined(a, b))
  {
    hide FrameRuns;
    assert ([frame] + rest)[1..] == rest;
    assert FirstThenRest([frame] + rest, raising, c, a, b, Joined(a, b));
  }

  lemma Pop(frame: Frame, rest: seq<Frame>, raising: bool, c: Ids, end: End) returns (a: End, b: End)
    requires FramesRun([frame] + rest, raising, c, end)
    ensures FrameRuns(frame, raising, c, a) && FramesRun(rest, a.fails, a.ids, b) && end == Joined(a, b)
  {
    hide FrameRuns;
    assert ([frame] + rest)[1..] == rest;
    a, b :| FirstThenRest([frame] + rest, raising, c, a, b, end);
  }

  /** Two frames that come from one may be run as that one. */
  lemma PopBoth(above: Frame, frame: Frame, rest: seq<Frame>, c: Ids, end: End) returns (a: End, b: End, r: End)
    requires FramesRun([above, frame] + rest, false, c, end)
    ensures FrameRuns(above, false, c, a) && FrameRuns(frame, a.fails, a.ids, b) && FramesRun(rest, b.fails, b.ids, r)
    ensures end == Joined(Joined(a, b), r)
  {
    hide FrameRuns, FramesRun;
    assert [above, frame] + rest == [above] + ([frame] + rest);
    var ab: End;
    a, ab := Pop(above, [frame] + rest, false, c, end);
    b, r := Pop(frame, rest, a.fails, a.ids, ab);
    Associate(a.log, b.log, r.log);
  }

  lemma Merged(above: Frame, frame: Frame, script: Script, rest: seq<Frame>, c: Ids, end: End)
    requires FramesRun([above, frame] + rest, false, c, end)
    requires forall a, b | FrameRuns(above, false, c, a) && FrameRuns(frame, a.fails, a.ids, b) ::
              Runs(script, c, Joined(a, b))
    ensures FramesRun([Do(script)] + rest, false, c, end)
  {
    var a, b, r := PopBoth(above, frame, rest, c, end);
    assert Runs(script, c, Joined(a, b));
    hide Runs, FramesRun;
    Push(Do(script), rest, false, c, Joined(a, b), r);
  }

  /** A step of a thread can be taken back: whatever it may do afterwards it could have done before, behind what
      the step put on the wire. */
  lemma StepBack(c: Config, raises: bool, end: End)
    requires c.frames != []
    requires var (after, _) := Advance(c, raises); FramesRun(after.frames, after.raising, after.ids, end)
    ensures FramesRun(c.frames, c.raising, c.ids, End(Advance(c, raises).1 + end.log, end.ids, end.fails))
  {
    var frame, rest := c.frames[0], c.frames[1..];
    var (after, x) := Advance(c, raises);
    assert c.frames == [frame] + rest;
    assert [] + end.log == end.log;
    hide FramesRun;
    match frame
    case Release(_) => Push(frame, rest, c.raising, c.ids, End([], c.ids, c.raising), end);
    case Rethrow => Push(frame, rest, c.raising, c.ids, End([], c.ids, true), end);
    case Handler(h, rethrow) =>
      if !c.raising {
        Push(frame, rest, false, c.ids, End([], c.ids, false), end);
      } else if rethrow {
        assert after.frames == [Do(h), Rethrow] + rest;
        var a, b, r := PopBoth(Do(h), Rethrow, rest, c.ids, end);
        assert a.log + [] == a.log;
        assert Runs(h, c.ids, a) && Joined(a, b) == a.(fails := a.fails || rethrow);
        hide Runs;
        Push(frame, rest, true, c.ids, Joined(a, b), r);
      } else {
        assert after.frames == [Do(h)] + rest;
        var a, b := Pop(Do(h), rest, false, c.ids, end);
        assert Runs(h, c.ids, a) && a == a.(fails := a.fails || rethrow);
        hide Runs;
        Push(frame, rest, true, c.ids, a, b);
      }
    case Do(script) =>
      if c.raising {
        Push(frame, rest, true, c.ids, End([], c.ids, true), end);
      } else if raises {
        Push(frame, rest, false, c.ids, End([], c.ids, true), end);
      } else {
        StepBackDo(c, end);
      }
  }

  lemma StepBackDo(c: Config, end: End)
    requires c.frames != [] && c.frames[0].Do? && !c.raising
    requires var (after, _) := Advance(c, false); FramesRun(after.frames, after.raising, after.ids, end)
    ensures FramesRun(c.frames, false, c.ids, End(Advance(c, false).1 + end.log, end.ids, end.fails))
  {
    var script, rest := c.frames[0].script, c.frames[1..];
    assert c.frames == [Do(script)] + rest;
    assert [] + end.log == end.log;
    hide FramesRun;
    match script
    case Skip => Push(Do(script), rest, false, c.ids, End([], c.ids, false), end);
    case TakeId => Push(Do(script), rest, false, c.ids, End([], Ids(c.ids.used + 1, c.ids.used + 1), false), end);
    case Emit(traffic) => Push(Do(script), rest, false, c.ids, End([EventOf(traffic, c.ids.mine)], c.ids, false), end);
    case Then(first, second) =>
      forall a, b | FrameRuns(Do(first), false, c.ids, a) && FrameRuns(Do(second), a.fails, a.ids, b)
        ensures Runs(script, c.ids, Joined(a, b))
      {
        assert a.log + [] == a.log;
        assert RunsInTurn(script, c.ids, a, b, Joined(a, b));
      }
      Merged(Do(first), Do(second), script, rest, c.ids, end);
    case With(l, body) =>
      forall a, b | FrameRuns(Do(body), false, c.ids, a) && FrameRuns(Release(l), a.fails, a.ids, b)
        ensures Runs(script, c.ids, Joined(a, b))
      {
        assert a.log + [] == a.log;
      }
      Merged(Do(body), Release(l), script, rest, c.ids, end);
    case Try(body, h, rethrow) =>
      forall a, b | FrameRuns(Do(body), false, c.ids, a) && FrameRuns(Handler(h, rethrow), a.fails, a.ids, b)
        ensures Runs(script, c.ids, Joined(a, b))
      {
        TryRuns(script, c.ids, a, b);
      }
      Merged(Do(body), Handler(h, rethrow), script, rest, c.ids, end);
  }

  lemma TryRuns(script: Script, c: Ids, a: End, b: End)
    requires script.Try? && Runs(script.body, c, a)
    requires FrameRuns(Handler(script.handler, script.rethrow), a.fails, a.ids, b)
    ensures Runs(script, c, Joined(a, b))
  {
    if a.fails {
      var h :| Runs(script.handler, a.ids, h) && b == h.(fails := h.fails || script.rethrow);
      assert RunsGuarded(script, c, a, h, Joined(a, b));
    } else {
      assert a.log + [] == a.log;
      assert RunsGuarded(script, c, a, b, Joined(a, b));
    }
  }

  /** An exception may end a thread's work at any moment without another word on the wire. */
  lemma {:induction false} CanStop(frames: seq<Frame>, raising: bool, c: Ids) returns (end: End)
    ensures FramesRun(frames, raising, c, end) && end.log == [] && end.ids == c
    decreases |frames|
  {
    if frames == [] {
      end := End([], c, raising);
    } else {
      var frame, rest := frames[0], frames[1..];
      var after := frame.Do? || frame.Rethrow? || raising;
      var a := End([], c, after);
      if frame.Handler? && raising {
        assert Runs(frame.handler, c, a);
      }
      assert FrameRuns(frame, raising, c, a);
      var b := CanStop(rest, after, c);
      hide FrameRuns;
      assert frames == [frame] + rest;
      Push(frame, rest, raising, c, a, b);
      end := Joined(a, b);
    }
  }

  // ---- where a thread stands

  /** Nothing for the wire, and no client lock. */
  predicate QuietScript(script: Script) {
    match script
    case Skip => true
    case TakeId => false
    case Emit(_) => false
    case Then(first, second) => QuietScript(first) && QuietScript(second)
    case With(l, body) => l != ClientLock && QuietScript(body)
    case Try(body, handler, _) => QuietScript(body) && QuietScript(handler)
  }

  predicate QuietFrame(frame: Frame) {
    match frame
    case Do(script) => QuietScript(script)
    case Release(l) => l != ClientLock
    case Handler(h, _) => QuietScript(h)
    case Rethrow => true
  }

  predicate Outside(frames: seq<Frame>) {
    forall frame | frame in frames :: QuietFrame(frame)
  }

  predicate Locked(script: Script) {
    script.With? && script.lock == ClientLock
  }

  /** The release of the client's lock is the last thing left to do. */
  predicate Inside(frames: seq<Frame>) {
    frames != [] && frames[|frames| - 1] == Release(ClientLock)
  }

  lemma {:induction false} RepeatQuiet(n: nat, script: Script)
    requires QuietScript(script)
    ensures QuietScript(Repeat(n, script))
  {
    if n > 0 {
      RepeatQuiet(n - 1, script);
    }
  }

  /** Everything an operation puts on the wire lies under the client's lock, taken first and released last. */
  lemma PathsAreLocked(op: Operation)
    ensures Locked(ScriptOf(op)) || QuietScript(ScriptOf(op))
  {
    assert QuietScript(STATE);
    if op.InvalidateOp? {
      var states := Repeat(op.n, STATE);
      RepeatQuiet(op.n, STATE);
      assert QuietScript(Try(Then(states, Skip), states, true));
    }
  }

  lemma {:induction false} InsideHolds(frames: seq<Frame>)
    requires Inside(frames)
    ensures ClientLock in Held(frames)
    decreases |frames|
  {
    if |frames| > 1 {
      InsideHolds(frames[1..]);
    }
  }

  lemma {:induction false} OutsideHoldsNot(frames: seq<Frame>)
    requires Outside(frames)
    ensures ClientLock !in Held(frames)
    decreases |frames|
  {
    if frames != [] {
      assert QuietFrame(frames[0]) && Outside(frames[1..]);
      OutsideHoldsNot(frames[1..]);
    }
  }

  lemma QuietPush(frames: seq<Frame>, rest: seq<Frame>)
    requires Outside(frames) && Outside(rest)
    ensures Outside(frames + rest)
  {}

  /** A quiet thread stays quiet, puts nothing on the wire and takes no id. */
  lemma QuietStep(c: Config, raises: bool)
    requires c.frames != [] && Outside(c.frames)
    ensures Outside(Advance(c, raises).0.frames)
    ensures Advance(c, raises).1 == [] && Advance(c, raises).0.ids == c.ids
  {
    var frame, rest := c.frames[0], c.frames[1..];
    assert QuietFrame(frame) && Outside(rest);
    match frame
    case Handler(h, rethrow) =>
      var pushed := [Do(h)] + (if rethrow then [Rethrow] else []);
      assert Outside(pushed);
      QuietPush(pushed, rest);
    case Do(Then(a, b)) => QuietPush([Do(a), Do(b)], rest);
    case Do(With(l, b)) => QuietPush([Do(b), Release(l)], rest);
    case Do(Try(b, h, rethrow)) => QuietPush([Do(b), Handler(h, rethrow)], rest);
    case _ =>
  }

  /** A thread inside stays inside until it has nothing left to do. */
  lemma InsideStep(c: Config, raises: bool)
    requires Inside(c.frames)
    ensures var after := Advance(c, raises).0.frames; Inside(after) || after == []
  {
    var rest := c.frames[1..];
    if rest != [] {
      assert rest[|rest| - 1] == Release(ClientLock);
    }
  }

  // ---- the invariant

  ghost predicate TurnRuns(programs: Programs, turn: Turn, log: seq<Event>, used: nat) {
    && turn.thread < |programs| && turn.index < |programs[turn.thread]|
    && exists end :: Runs(ScriptOf(programs[turn.thread][turn.index]), turn.start, end)
                     && end.log == log && end.ids.used == used && (turn.done ==> end.fails == turn.raised)
  }

  /** The log is what the operations of `turns` put on the wire when they run alone, one after another; the last
      may have been cut short by an exception unless it is done. */
  ghost predicate IsSerial(programs: Programs, turns: seq<Turn>, log: seq<Event>, used: nat) {
    if turns == [] then log == [] && used == 0
    else
      var front, last := turns[..|turns| - 1], turns[|turns| - 1];
      && last.from <= |log| && TurnRuns(programs, last, log[last.from..], used)
      && IsSerial(programs, front, log[..last.from], last.start.used)
  }

  predicate AllDone(turns: seq<Turn>) {
    forall turn | turn in turns :: turn.done
  }

  /** The thread is inside its latest operation, and whatever it may still do completes a run of that operation
      alone. */
  ghost predicate Pending(programs: Programs, s: System, t: nat)
    requires t < |s.threads|
  {
    var th := s.threads[t];
    && s.turns != []
    && var front, last := s.turns[..|s.turns| - 1], s.turns[|s.turns| - 1];
       && AllDone(front) && !last.done && last.thread == t && last.index + 1 == th.begun
       && t < |programs| && last.index < |programs[t]| && last.from <= |s.log|
       && IsSerial(programs, front, s.log[..last.from], last.start.used)
       && forall end | FramesRun(th.frames, th.raising, Ids(th.mine, s.used), end) ::
            Runs(ScriptOf(programs[t][last.index]), last.start, End(s.log[last.from..] + end.log, end.ids, end.fails))
  }

  /** About to take the client's lock for the operation it has begun. */
  predicate AtStart(programs: Programs, t: nat, th: Thread) {
    && t < |programs| && 0 < th.begun <= |programs[t]| && !th.raising
    && th.frames == [Do(ScriptOf(programs[t][th.begun - 1]))] && Locked(th.frames[0].script)
  }

  /** The operations of a thread take their turns in the order of its program. */
  predicate InOrder(turns: seq<Turn>) {
    forall j, k | 0 <= j < k < |turns| && turns[j].thread == turns[k].thread :: turns[j].index < turns[k].index
  }

  predicate Past(programs: Programs, s: System) {
    forall k | 0 <= k < |s.turns| ::
      && s.turns[k].thread < |s.threads|
      && s.turns[k].index < s.threads[s.turns[k].thread].begun
      && (AtStart(programs, s.turns[k].thread, s.threads[s.turns[k].thread]) ==>
            s.turns[k].index + 1 < s.threads[s.turns[k].thread].begun)
  }

  predicate Stands(programs: Programs, t: nat, th: Thread)
    requires t < |programs|
  {
    th.begun <= |programs[t]| && (Outside(th.frames) || AtStart(programs, t, th) || Inside(th.frames))
  }

  ghost predicate Inv(programs: Programs, s: System) {
    && |s.threads| == |programs|
    && (forall t | 0 <= t < |s.threads| :: Stands(programs, t, s.threads[t]))
    && (forall t, u | 0 <= t < u < |s.threads| :: !(Inside(s.threads[t].frames) && Inside(s.threads[u].frames)))
    && (forall t | 0 <= t < |s.threads| && Inside(s.threads[t].frames) :: Pending(programs, s, t))
    && ((forall t | 0 <= t < |s.threads| :: !Inside(s.threads[t].frames)) ==>
          AllDone(s.turns) && IsSerial(programs, s.turns, s.log, s.used))
    && InOrder(s.turns) && Past(programs, s)
  }

  // ---- every step keeps it

  lemma OutsideIsNotInside(programs: Programs, t: nat, th: Thread)
    requires Outside(th.frames)
    ensures !Inside(th.frames) && !AtStart(programs, t, th)
  {
    if th.frames != [] {
      assert QuietFrame(th.frames[0]) && QuietFrame(th.frames[|th.frames| - 1]);
    }
  }

  /** A step that leaves wire, ids and record alone, by a thread that is not inside before or after. */
  lemma QuietChange(programs: Programs, s: System, t: nat, th: Thread)
    requires Inv(programs, s) && t < |s.threads| && !Inside(s.threads[t].frames) && !Inside(th.frames)
    requires s.threads[t].begun <= th.begun <= |programs[t]| && (Outside(th.frames) || AtStart(programs, t, th))
    requires AtStart(programs, t, th) ==> s.threads[t].begun < th.begun
    ensures Inv(programs, s.(threads := s.threads[t := th]))
  {
    hide IsSerial, Runs, FramesRun, AtStart, Outside, Inside;
    var s' := s.(threads := s.threads[t := th]);
    forall u | 0 <= u < |s'.threads| && Inside(s'.threads[u].frames)
      ensures Pending(programs, s', u)
    {
      assert u != t && s'.threads[u] == s.threads[u] && Pending(programs, s, u);
    }
    if forall u | 0 <= u < |s'.threads| :: !Inside(s'.threads[u].frames) {
      forall u | 0 <= u < |s.threads|
        ensures !Inside(s.threads[u].frames)
      {
        assert u != t ==> s'.threads[u] == s.threads[u];
      }
    }
  }

  lemma BeginKeeps(programs: Programs, s: System, t: nat)
    requires Inv(programs, s) && t < |programs| && s.threads[t].frames == [] && s.threads[t].begun < |programs[t]|
    ensures Inv(programs, Begin(programs, s, t))
  {
    hide IsSerial, Runs, FramesRun, ScriptOf, Pending, InOrder, Past;
    var th := Begin(programs, s, t).threads[t];
    PathsAreLocked(programs[t][th.begun - 1]);
    assert Outside(th.frames) || AtStart(programs, t, th);
    QuietChange(programs, s, t, th);
  }

  lemma OutsideKeeps(programs: Programs, s: System, t: nat, raises: bool)
    requires Inv(programs, s) && t < |programs| && s.threads[t].frames != [] && Outside(s.threads[t].frames)
    ensures Inv(programs, Moved(s, t, raises))
  {
    hide IsSerial, Runs, FramesRun, ScriptOf, Pending, InOrder, Past, Advance, Outside, Inside, Held, AtStart;
    var th := s.threads[t];
    var c := Config(th.frames, th.raising, Ids(th.mine, s.used));
    QuietStep(c, raises);
    var th' := Moved(s, t, raises).threads[t];
    OutsideHoldsNot(th.frames);
    OutsideHoldsNot(th'.frames);
    OutsideIsNotInside(programs, t, th);
    OutsideIsNotInside(programs, t, th');
    QuietChange(programs, s, t, th');
    assert s.log + [] == s.log;
    assert Moved(s, t, raises) == s.(threads := s.threads[t := th']);
  }

  lemma StartRaises(programs: Programs, s: System, t: nat)
    requires Inv(programs, s) && t < |programs| && AtStart(programs, t, s.threads[t])
    ensures Inv(programs, Moved(s, t, true))
  {
    hide IsSerial, Runs, FramesRun, ScriptOf, Pending, InOrder, Past;
    var th := s.threads[t];
    var th' := Moved(s, t, true).threads[t];
    assert th.frames[1..] == [] && Held([]) == {};
    assert th'.frames == [];
    QuietChange(programs, s, t, th');
    assert s.log + [] == s.log;
    assert Moved(s, t, true) == s.(threads := s.threads[t := th']);
  }

  lemma SingleRuns(script: Script, c: Ids, end: End)
    requires FramesRun([Do(script)], false, c, end)
    ensures Runs(script, c, end)
  {
    assert [Do(script)] == [Do(script)] + [];
    var a, b := Pop(Do(script), [], false, c, end);
    assert a.log + [] == a.log;
    hide Runs;
    assert end == a;
  }

  lemma NobodyInside(s: System, t: nat)
    requires t < |s.threads| && Free(s, t, ClientLock) && !Inside(s.threads[t].frames)
    ensures forall u | 0 <= u < |s.threads| :: !Inside(s.threads[u].frames)
  {
    hide Inside, Held;
    forall u | 0 <= u < |s.threads|
      ensures !Inside(s.threads[u].frames)
    {
      if Inside(s.threads[u].frames) { InsideHolds(s.threads[u].frames); }
    }
  }

  /** What taking the client's lock leads to. */
  lemma StartAdvances(programs: Programs, s: System, t: nat)
    requires |s.threads| == |programs| && t < |programs| && AtStart(programs, t, s.threads[t])
    ensures var s' := Moved(s, t, false);
            && s'.log == s.log && s'.used == s.used
            && s'.threads == s.threads[t := s'.threads[t]] && s'.threads[t].begun == s.threads[t].begun
            && Inside(s'.threads[t].frames) && !AtStart(programs, t, s'.threads[t])
            && s'.turns == s.turns + [Opened(s, t)]
    ensures !Inside(s.threads[t].frames)
    ensures var s' := Moved(s, t, false);
            var th := s'.threads[t];
            forall end | FramesRun(th.frames, th.raising, Ids(th.mine, s'.used), end) ::
              Runs(ScriptOf(programs[t][th.begun - 1]), Ids(s.threads[t].mine, s.used),
                  End([] + end.log, end.ids, end.fails))
  {
    hide Runs, FramesRun, ScriptOf;
    var th := s.threads[t];
    var c := Config(th.frames, th.raising, Ids(th.mine, s.used));
    var s' := Moved(s, t, false);
    var th' := s'.threads[t];
    assert th.frames[1..] == [] && Held([]) == {} && ClientLock !in Held(th.frames);
    assert s.log + [] == s.log;
    InsideHolds(th'.frames);
    forall end | FramesRun(th'.frames, th'.raising, Ids(th'.mine, s'.used), end)
      ensures Runs(ScriptOf(programs[t][th.begun - 1]), Ids(th.mine, s.used), End([] + end.log, end.ids, end.fails))
    {
      StepBack(c, false, end);
      SingleRuns(th.frames[0].script, c.ids, End([] + end.log, end.ids, end.fails));
    }
  }

  lemma StartKeeps(programs: Programs, s: System, t: nat)
    requires Inv(programs, s) && Enabled(programs, s, t) && AtStart(programs, t, s.threads[t])
    ensures Inv(programs, Moved(s, t, false))
  {
    StartAdvances(programs, s, t);
    assert Wants(s.threads[t], ClientLock);
    NobodyInside(s, t);
    hide IsSerial, Runs, FramesRun, ScriptOf, Inside, Outside, AtStart, Moved, Held, Enabled;
    var s' := Moved(s, t, false);
    assert s'.turns[..|s'.turns| - 1] == s.turns;
    assert s'.log[..|s.log|] == s.log && s'.log[|s.log|..] == [];
    assert Pending(programs, s', t);
    StartInOrder(programs, s, s', t);
    assert forall u | 0 <= u < |s.threads| && u != t :: s'.threads[u] == s.threads[u];
  }

  lemma StartInOrder(programs: Programs, s: System, s': System, t: nat)
    requires InOrder(s.turns) && Past(programs, s) && t < |s.threads| && AtStart(programs, t, s.threads[t])
    requires s.threads[t].begun > 0 && |s'.threads| == |s.threads| && s'.threads == s.threads[t := s'.threads[t]]
    requires s'.threads[t].begun == s.threads[t].begun && !AtStart(programs, t, s'.threads[t])
    requires s'.turns == s.turns + [Opened(s, t)]
    ensures InOrder(s'.turns) && Past(programs, s')
  {
    hide AtStart;
    forall j, k | 0 <= j < k < |s'.turns| && s'.turns[j].thread == s'.turns[k].thread
      ensures s'.turns[j].index < s'.turns[k].index
    {
      assert s'.turns[j] == s.turns[j];
    }
  }

  /** What a step of the thread inside leads to, in terms of runs alone. */
  lemma InsideAdvances(programs: Programs, s: System, t: nat, raises: bool)
    requires |s.threads| == |programs| && t < |programs| && Inside(s.threads[t].frames) && Pending(programs, s, t)
    ensures var s', last := Moved(s, t, raises), s.turns[|s.turns| - 1];
            var th := s'.threads[t];
            && last.from <= |s.log| <= |s'.log| && s'.log[..last.from] == s.log[..last.from]
            && forall end | FramesRun(th.frames, th.raising, Ids(th.mine, s'.used), end) ::
                 Runs(ScriptOf(programs[t][last.index]), last.start,
                     End(s'.log[last.from..] + end.log, end.ids, end.fails))
  {
    hide Runs, FramesRun, ScriptOf, IsSerial, Advance, TurnsAfter;
    var th, last := s.threads[t], s.turns[|s.turns| - 1];
    var c := Config(th.frames, th.raising, Ids(th.mine, s.used));
    var s' := Moved(s, t, raises);
    var th', x := s'.threads[t], Advance(c, raises).1;
    forall end | FramesRun(th'.frames, th'.raising, Ids(th'.mine, s'.used), end)
      ensures Runs(ScriptOf(programs[t][last.index]), last.start,
          End(s'.log[last.from..] + end.log, end.ids, end.fails))
    {
      StepBack(c, raises, end);
      assert s.log[last.from..] + (x + end.log) == s'.log[last.from..] + end.log;
    }
  }

  lemma InsideKeeps(programs: Programs, s: System, t: nat, raises: bool)
    requires Inv(programs, s) && t < |programs| && Inside(s.threads[t].frames)
    ensures Inv(programs, Moved(s, t, raises))
  {
    hide Runs, FramesRun, ScriptOf, IsSerial, Advance, Held, InOrder, Past, Outside, AtStart, TurnsAfter;
    assert s.threads[t].frames != [];
    InsideStep(Config(s.threads[t].frames, s.threads[t].raising, Ids(s.threads[t].mine, s.used)), raises);
    InsideHolds(s.threads[t].frames);
    InsideAdvances(programs, s, t, raises);
    if Inside(Moved(s, t, raises).threads[t].frames) {
      InsideHolds(Moved(s, t, raises).threads[t].frames);
      InsideGoesOn(programs, s, t, raises);
    } else {
      NothingHeld();
      InsideEnds(programs, s, t, raises);
    }
  }

  lemma NothingHeld()
    ensures Held([]) == {}
  {}

  lemma InsideGoesOn(programs: Programs, s: System, t: nat, raises: bool)
    requires Inv(programs, s) && t < |programs| && Inside(s.threads[t].frames)
    requires var s', last := Moved(s, t, raises), s.turns[|s.turns| - 1];
             var th := s'.threads[t];
             && Inside(th.frames) && ClientLock in Held(s.threads[t].frames) && ClientLock in Held(th.frames)
             && last.from <= |s.log| <= |s'.log| && s'.log[..last.from] == s.log[..last.from]
             && forall end | FramesRun(th.frames, th.raising, Ids(th.mine, s'.used), end) ::
                  Runs(ScriptOf(programs[t][last.index]), last.start,
                      End(s'.log[last.from..] + end.log, end.ids, end.fails))
    ensures Inv(programs, Moved(s, t, raises))
  {
    hide Runs, FramesRun, ScriptOf, IsSerial, Advance, Held, Outside;
    var s' := Moved(s, t, raises);
    assert s'.turns == s.turns && Pending(programs, s', t);
    assert forall u | 0 <= u < |s.threads| && u != t :: s'.threads[u] == s.threads[u];
  }

  lemma InsideEnds(programs: Programs, s: System, t: nat, raises: bool)
    requires Inv(programs, s) && t < |programs| && Inside(s.threads[t].frames)
    requires var s', last := Moved(s, t, raises), s.turns[|s.turns| - 1];
             var th := s'.threads[t];
             && th.frames == [] && ClientLock in Held(s.threads[t].frames) && ClientLock !in Held(th.frames)
             && last.from <= |s.log| <= |s'.log| && s'.log[..last.from] == s.log[..last.from]
             && forall end | FramesRun(th.frames, th.raising, Ids(th.mine, s'.used), end) ::
                  Runs(ScriptOf(programs[t][last.index]), last.start,
                      End(s'.log[last.from..] + end.log, end.ids, end.fails))
    ensures Inv(programs, Moved(s, t, raises))
  {
    EndOfTurn(programs, s, t, raises);
    hide Runs, FramesRun, ScriptOf, Advance, Held, IsSerial, Outside, Past, InOrder;
    var s', front := Moved(s, t, raises), s.turns[..|s.turns| - 1];
    var th := s'.threads[t];
    NothingLeft(th.raising, Ids(th.mine, s'.used));
    SerialAfterEnd(programs, front, s'.turns[|front|], s'.log, Ids(th.mine, s'.used));
    RecordClosed(programs, s, s', t, th.raising);
    NoneInsideNow(programs, s, s', t);
    assert Stands(programs, t, s.threads[t]) && Stands(programs, t, th) by { assert th.frames == []; }
    hide Moved, Pending, Stands, Inside, AllDone;
    assert forall u | 0 <= u < |s'.threads| :: Stands(programs, u, s'.threads[u]);
  }

  lemma EndOfTurn(programs: Programs, s: System, t: nat, raises: bool)
    requires t < |s.threads| && s.threads[t].frames != [] && s.turns != []
    requires ClientLock in Held(s.threads[t].frames) && ClientLock !in Held(Moved(s, t, raises).threads[t].frames)
    ensures var s', last := Moved(s, t, raises), s.turns[|s.turns| - 1];
            && s'.turns == s.turns[..|s.turns| - 1] + [last.(done := true, raised := s'.threads[t].raising)]
            && |s'.threads| == |s.threads| && s'.threads[t].begun == s.threads[t].begun
            && (s'.threads[t].frames == [] ==> !AtStart(programs, t, s'.threads[t]))
            && forall u | 0 <= u < |s.threads| && u != t :: s'.threads[u] == s.threads[u]
  {
    hide Advance, Held;
  }

  lemma NothingLeft(raising: bool, c: Ids)
    ensures FramesRun([], raising, c, End([], c, raising))
  {}

  lemma SerialAfterEnd(programs: Programs, front: seq<Turn>, last: Turn, log: seq<Event>, ids: Ids)
    requires last.thread < |programs| && last.index < |programs[last.thread]| && last.from <= |log|
    requires IsSerial(programs, front, log[..last.from], last.start.used)
    requires Runs(ScriptOf(programs[last.thread][last.index]), last.start, End(log[last.from..] + [], ids, last.raised))
    ensures IsSerial(programs, front + [last], log, ids.used)
  {
    hide Runs, ScriptOf;
    var end := End(log[last.from..] + [], ids, last.raised);
    assert end.log == log[last.from..];
    assert TurnRuns(programs, last, log[last.from..], ids.used);
    hide TurnRuns;
    assert (front + [last])[..|front + [last]| - 1] == front && (front + [last])[|front + [last]| - 1] == last;
  }

  lemma NoneInsideNow(programs: Programs, s: System, s': System, t: nat)
    requires Inv(programs, s) && t < |s.threads| && Inside(s.threads[t].frames)
    requires |s'.threads| == |s.threads| && s'.threads[t].frames == []
    requires forall u | 0 <= u < |s.threads| && u != t :: s'.threads[u] == s.threads[u]
    ensures forall u | 0 <= u < |s'.threads| :: !Inside(s'.threads[u].frames)
  {
    hide IsSerial, Runs, FramesRun, Past, InOrder, Pending, ScriptOf;
    assert forall u | 0 <= u < |s.threads| && u != t :: !Inside(s.threads[u].frames);
  }

  lemma RecordClosed(programs: Programs, s: System, s': System, t: nat, raised: bool)
    requires s.turns != [] && AllDone(s.turns[..|s.turns| - 1]) && InOrder(s.turns) && Past(programs, s)
    requires t < |s.threads| == |s'.threads|
    requires s'.threads[t].begun == s.threads[t].begun && !AtStart(programs, t, s'.threads[t])
    requires forall u | 0 <= u < |s.threads| && u != t :: s'.threads[u] == s.threads[u]
    requires s'.turns == s.turns[..|s.turns| - 1] + [s.turns[|s.turns| - 1].(done := true, raised := raised)]
    ensures AllDone(s'.turns) && InOrder(s'.turns) && Past(programs, s')
  {
    hide AtStart;
    assert forall k | 0 <= k < |s.turns| ::
        (s'.turns[k].thread == s.turns[k].thread && s'.turns[k].index == s.turns[k].index);
    forall turn | turn in s'.turns
      ensures turn.done
    {
      var k :| 0 <= k < |s'.turns| && s'.turns[k] == turn;
      if k < |s.turns| - 1 { assert s.turns[..|s.turns| - 1][k] == turn; }
    }
  }

  lemma NextKeeps(programs: Programs, s: System, s': System)
    requires Inv(programs, s) && Next(programs, s, s')
    ensures Inv(programs, s')
  {
    var t: nat, raises: bool :| Acts(programs, s, t, raises, s');
    hide Runs, FramesRun, ScriptOf, IsSerial, Advance, Held, Pending, Past, InOrder, Moved, Begin;
    if s.threads[t].frames == [] {
      BeginKeeps(programs, s, t);
    } else if Outside(s.threads[t].frames) {
      OutsideKeeps(programs, s, t, raises);
    } else if Inside(s.threads[t].frames) {
      InsideKeeps(programs, s, t, raises);
    } else if raises {
      StartRaises(programs, s, t);
    } else {
      StartKeeps(programs, s, t);
    }
  }

  lemma {:induction false} BehaviourKeeps(programs: Programs, states: seq<System>, i: nat)
    requires Behaviour(programs, states) && i < |states|
    ensures Inv(programs, states[i])
  {
    if i > 0 {
      hide Inv;
      BehaviourKeeps(programs, states, i - 1);
      assert Next(programs, states[i - 1], states[i - 1 + 1]);
      NextKeeps(programs, states[i - 1], states[i]);
    }
  }

  // ---- what an operation run alone comes to

  /** One execution and, only if it was complete, up to `checks` error queries; all of them unless something raised. */
  predicate Attempted(t: Transcript, command: Command, replies: nat, checks: nat, fails: bool) {
    && (t != [] ==> Whole(t, command, replies, replies) && |t| <= 1 + checks)
    && (!fails ==> |t| == 1 + checks && t[0] == Sent(command, replies) && AllAnswered(t[1..]))
  }

  predicate Drained(t: Transcript, checks: nat, fails: bool) {
    ErrorQueries(t) && |t| <= checks && (!fails ==> |t| == checks && AllAnswered(t))
  }

  /** The probe and then the identity query, as far as they are asked for; nothing follows a failure. */
  ghost predicate Established(op: Operation, t: Transcript, fails: bool)
    requires op.OpenOp? || op.RecoverOp?
  {
    || (fails && t == [])
    || exists a, b, f :: EstablishedAs(op, t, a, b, f, fails)
  }

  predicate EstablishedAs(op: Operation, t: Transcript, a: Transcript, b: Transcript, f: bool, fails: bool)
    requires op.OpenOp? || op.RecoverOp?
  {
    && t == a + b
    && (if op.probe then Attempted(a, Other(op.health), 1, op.checks, f) else a == [])
    && (if f then fails && b == [] else if op.validate then Attempted(b, IDENTIFY, 1, op.checks, fails) else b == [])
  }

  /** The transcript is one the operation may have. */
  ghost predicate Fits(op: Operation, t: Transcript, fails: bool)
    decreases op, 1
  {
    match op
    case WriteOp(_, text, checks) => Attempted(t, Other(text), 0, checks, fails)
    case QueryOp(_, text, checks) => Attempted(t, Other(text), 1, checks, fails)
    case BlockQueryOp(_, text, replies, checks) => Attempted(t, Other(text), replies, checks, fails)
    case DrainOp(_, checks) => Drained(t, checks, fails)
    case OpenOp(_, _, _, _, _) => Established(op, t, fails)
    case RecoverOp(_, faulted, _, _, _, _) => if faulted then Established(op, t, fails) else t == []
    case CheckCommunicationOp(_, health, checks) => Attempted(t, Other(health), 1, checks, true)
    case GetIdentityOp(_, cached, checks) => if cached then t == [] else Attempted(t, IDENTIFY, 1, checks, fails)
    case OperationLockOp(calls) => AllFit(calls, t, fails)
    case _ => t == []
  }

  /** The calls one after another, up to one that raises and is not caught. */
  ghost predicate AllFit(calls: seq<Call>, t: Transcript, fails: bool)
    decreases calls, 1
  {
    || (t == [] && (fails || calls == []))
    || (calls != [] && exists a, b, f :: FirstFits(calls, t, a, b, f, fails))
  }

  ghost predicate FirstFits(calls: seq<Call>, t: Transcript, a: Transcript, b: Transcript, f: bool, fails: bool)
    requires calls != []
    decreases calls, 0
  {
    && t == a + b && CallFits(calls[0], a, f)
    && if f && !calls[0].caught then fails && b == [] else AllFit(calls[1..], b, fails)
  }

  ghost predicate CallFits(call: Call, t: Transcript, fails: bool) {
    Fits(call.op, t, fails)
  }

  /** Locks only: nothing for the wire and no ids. */
  predicate Silent(script: Script) {
    match script
    case Skip => true
    case TakeId => false
    case Emit(_) => false
    case Then(first, second) => Silent(first) && Silent(second)
    case With(_, body) => Silent(body)
    case Try(body, handler, _) => Silent(body) && Silent(handler)
  }

  lemma {:induction false} SilentRuns(script: Script, c: Ids, end: End)
    requires Silent(script) && Runs(script, c, end)
    ensures end.log == [] && end.ids == c
    decreases script
  {
    if end != End([], c, true) {
      match script
      case Then(first, second) =>
        var a, b :| RunsInTurn(script, c, a, b, end);
        SilentRuns(first, c, a);
        if !a.fails { SilentRuns(second, a.ids, b); }
      case With(_, body) => SilentRuns(body, c, end);
      case Try(body, handler, _) =>
        var a, b :| RunsGuarded(script, c, a, b, end);
        SilentRuns(body, c, a);
        if a.fails { SilentRuns(handler, a.ids, b); }
      case _ =>
    }
  }

  lemma {:induction false} RepeatSilent(n: nat, script: Script)
    requires Silent(script)
    ensures Silent(Repeat(n, script))
  {
    if n > 0 {
      RepeatSilent(n - 1, script);
    }
  }

  lemma InTurn(first: Script, second: Script, c: Ids, end: End) returns (a: End, b: End)
    requires Runs(Then(first, second), c, end)
    ensures Runs(first, c, a) && (!a.fails ==> Runs(second, a.ids, b) && end == Joined(a, b)) && (a.fails ==> end == a)
  {
    var script := Then(first, second);
    if exists a, b :: RunsInTurn(script, c, a, b, end) {
      a, b :| RunsInTurn(script, c, a, b, end);
    } else {
      a, b := end, end;
    }
  }

  lemma Guarded(body: Script, handler: Script, rethrow: bool, c: Ids, end: End) returns (a: End, b: End)
    requires Runs(Try(body, handler, rethrow), c, end)
    ensures Runs(body, c, a) && (!a.fails ==> end == a)
    ensures a.fails ==> Runs(handler, a.ids, b) && end == Joined(a, b.(fails := end.fails))
    ensures a.fails && rethrow ==> end.fails
  {
    var script := Try(body, handler, rethrow);
    if exists a, b :: RunsGuarded(script, c, a, b, end) {
      a, b :| RunsGuarded(script, c, a, b, end);
    } else {
      a, b := end, end;
    }
  }

  /** A transport call does its one thing at most once, and exactly once unless it raises. */
  lemma CallRuns(n: nat, traffic: Script, c: Ids, end: End)
    requires (traffic.Skip? || traffic.Emit?) && Runs(TransportCall(n, traffic), c, end)
    ensures var done := if traffic.Skip? then [] else [EventOf(traffic.traffic, c.mine)];
            end.ids == c && (end.log == [] || end.log == done) && (!end.fails ==> end.log == done)
  {
    var states := Repeat(n, STATE);
    RepeatSilent(n, STATE);
    hide Repeat, Silent;
    var a, b := Guarded(Then(states, traffic), states, true, c, end);
    var x, y := InTurn(states, traffic, c, a);
    SilentRuns(states, c, x);
    if a.fails { SilentRuns(states, a.ids, b); }
    assert [] + y.log == y.log && a.log + [] == a.log;
  }

  function Gots(id: nat, k: nat): seq<Event> {
    seq(k, _ => Got(id))
  }

  lemma {:induction false} ReadsRun(n: nat, replies: nat, c: Ids, end: End) returns (k: nat)
    requires Runs(Repeat(replies, ReadCall(n)), c, end)
    ensures end.ids == c && k <= replies && end.log == Gots(c.mine, k) && (!end.fails ==> k == replies)
    decreases replies
  {
    if replies == 0 {
      k := 0;
    } else {
      hide TransportCall;
      var a, b := InTurn(ReadCall(n), Repeat(replies - 1, ReadCall(n)), c, end);
      CallRuns(n, Emit(Read), c, a);
      if a.fails {
        k := |a.log|;
      } else {
        var rest := ReadsRun(n, replies - 1, c, b);
        k := 1 + rest;
        assert [Got(c.mine)] + Gots(c.mine, rest) == Gots(c.mine, 1 + rest);
      }
    }
  }

  /** One exchange of a command under the id taken last: nothing, or the write and some replies; all unless it
      raises. */
  ghost predicate Exchanged(c: Ids, end: End, command: Command, replies: nat) {
    && end.ids == c
    && (end.log == [] || exists k | 0 <= k <= replies :: end.log == EventsOf(Sent(command, k), c.mine))
    && (!end.fails ==> end.log == EventsOf(Sent(command, replies), c.mine))
  }

  lemma SendRuns(n: nat, command: Command, c: Ids, end: End)
    requires Runs(SendCall(n, command), c, end)
    ensures Exchanged(c, end, command, 0)
  {
    CallRuns(n, Emit(Write(command)), c, end);
    assert [Wrote(c.mine, command)] == EventsOf(Sent(command, 0), c.mine);
  }

  /** A write and, if it went out, some of the fetches. */
  lemma WrittenThenRead(c: Ids, a: End, b: End, command: Command, replies: nat, k: nat)
    requires Exchanged(c, a, command, 0) && !a.fails && k <= replies
    requires b.ids == c && b.log == Gots(c.mine, k) && (!b.fails ==> k == replies)
    ensures Exchanged(c, Joined(a, b), command, replies)
  {
    assert Joined(a, b).log == EventsOf(Sent(command, k), c.mine);
  }

  lemma WrittenOnly(c: Ids, a: End, command: Command, replies: nat)
    requires Exchanged(c, a, command, 0) && a.fails
    ensures Exchanged(c, a, command, replies)
  {}

  lemma TransactRuns(n: nat, command: Command, c: Ids, end: End)
    requires Runs(Transact(n, command), c, end)
    ensures Exchanged(c, end, command, 1)
  {
    hide TransportCall;
    var a, b := InTurn(SendCall(n, command), ReadCall(n), c, end);
    SendRuns(n, command, c, a);
    if a.fails {
      WrittenOnly(c, a, command, 1);
    } else {
      CallRuns(n, Emit(Read), c, b);
      assert b.log == Gots(c.mine, |b.log|);
      WrittenThenRead(c, a, b, command, 1, |b.log|);
    }
  }

  lemma BlockRuns(n: nat, command: Command, replies: nat, c: Ids, end: End)
    requires Runs(BlockExchange(n, command, replies), c, end)
    ensures Exchanged(c, end, command, replies)
  {
    hide TransportCall, Repeat;
    var fetches := Repeat(replies, ReadCall(n));
    var x, y := Guarded(Then(SendCall(n, command), fetches), TransportCall(n, Skip), true, c, end);
    var a, b := InTurn(SendCall(n, command), fetches, c, x);
    SendRuns(n, command, c, a);
    if a.fails {
      WrittenOnly(c, a, command, replies);
    } else {
      var k := ReadsRun(n, replies, c, b);
      WrittenThenRead(c, a, b, command, replies, k);
    }
    if x.fails {
      CallRuns(n, Skip, x.ids, y);
      assert x.log + [] == x.log;
    }
  }

  /** What a transcript means on the wire. */
  predicate Tells(t: Transcript, c: Ids, end: End) {
    end.log == Events(t, c.used) && end.ids.used == c.used + |t|
  }

  lemma TellsNothing(c: Ids, end: End)
    requires end.log == [] && end.ids.used == c.used
    ensures Tells([], c, end)
  {}

  lemma TellsBoth(a: Transcript, b: Transcript, c: Ids, x: End, y: End)
    requires Tells(a, c, x) && Tells(b, x.ids, y)
    ensures Tells(a + b, c, Joined(x, y))
  {
    EventsAppend(a, b, c.used);
  }

  lemma NotifyRuns(c: Ids, end: End)
    requires Runs(NOTIFY, c, end)
    ensures end.log == [] && end.ids == c
  {
    assert Silent(NOTIFY);
    SilentRuns(NOTIFY, c, end);
  }

  ghost predicate ActsAs(action: Script, command: Command, replies: nat) {
    forall c, end | Runs(action, c, end) :: Exchanged(c, end, command, replies)
  }

  /** One trip through the choke point: a fresh id, and the exchange under it. */
  lemma ExecuteRuns(action: Script, command: Command, replies: nat, c: Ids, end: End) returns (t: Transcript)
    requires Runs(Execute(action), c, end) && ActsAs(action, command, replies)
    ensures Tells(t, c, end) && Attempted(t, command, replies, 0, end.fails)
  {
    hide Runs, EventsOf;
    var counted := Then(With(IdLock, TakeId), action);
    assert Runs(Then(Try(counted, NOTIFY, true), NOTIFY), c, end) by { UnderLock(Execute(action), c, end); }
    var x, y := InTurn(Try(counted, NOTIFY, true), NOTIFY, c, end);
    var a, b := Guarded(counted, NOTIFY, true, c, x);
    t := CountedRuns(action, command, replies, c, a);
    if a.fails { NotifyRuns(a.ids, b); }
    if !x.fails { NotifyRuns(x.ids, y); }
    assert x.log == a.log && end.log == a.log;
  }

  lemma UnderLock(script: Script, c: Ids, end: End)
    requires script.With? && Runs(script, c, end)
    ensures Runs(script.body, c, end)
  {}

  lemma CountedRuns(action: Script, command: Command, replies: nat, c: Ids, end: End) returns (t: Transcript)
    requires Runs(Then(With(IdLock, TakeId), action), c, end) && ActsAs(action, command, replies)
    ensures Tells(t, c, end) && Attempted(t, command, replies, 0, end.fails)
  {
    var a, b := InTurn(With(IdLock, TakeId), action, c, end);
    assert a.log == [] && (a.fails ==> a.ids == c) && (!a.fails ==> a.ids == Ids(c.used + 1, c.used + 1));
    assert !a.fails ==> Exchanged(a.ids, b, command, replies);
    hide Runs, ActsAs, EventsOf, Events;
    if a.fails {
      TellsNothing(c, end);
      t := [];
    } else {
      assert end.log == b.log by { assert [] + b.log == b.log; }
      var e := OneExecution(a.ids, b, command, replies);
      t := [e];
      EventsOfOne(e, c.used);
    }
  }

  lemma OneExecution(c: Ids, end: End, command: Command, replies: nat) returns (e: Execution)
    requires Exchanged(c, end, command, replies)
    ensures end.log == EventsOf(e, c.mine) && (!end.fails ==> e == Sent(command, replies))
    ensures e.Sent? ==> e.command == command && e.replies <= replies
  {
    if !end.fails {
      e := Sent(command, replies);
    } else if end.log == [] {
      e := Unsent;
    } else {
      var k :| 0 <= k <= replies && end.log == EventsOf(Sent(command, k), c.mine);
      e := Sent(command, k);
    }
  }

  lemma {:induction false} QueriesRun(n: nat, checks: nat, c: Ids, end: End) returns (t: Transcript)
    requires Runs(Repeat(checks, ErrorQueryScript(n)), c, end)
    ensures Tells(t, c, end) && Drained(t, checks, end.fails)
    decreases checks
  {
    if checks == 0 {
      TellsNothing(c, end);
      t := [];
    } else {
      var a, b := InTurn(ErrorQueryScript(n), Repeat(checks - 1, ErrorQueryScript(n)), c, end);
      UnderLock(ErrorQueryScript(n), c, a);
      hide Runs, Events, Execute, Transact;
      forall c, end | Runs(Transact(n, ErrorQuery), c, end)
        ensures Exchanged(c, end, ErrorQuery, 1)
      {
        TransactRuns(n, ErrorQuery, c, end);
      }
      var first := ExecuteRuns(Transact(n, ErrorQuery), ErrorQuery, 1, c, a);
      if a.fails {
        t := first;
      } else {
        var rest := QueriesRun(n, checks - 1, a.ids, b);
        TellsBoth(first, rest, c, a, b);
        assert first == [Sent(ErrorQuery, 1)];
        t := first + rest;
      }
    }
  }

  lemma DrainRuns(n: nat, checks: nat, c: Ids, end: End) returns (t: Transcript)
    requires Runs(DrainScript(n, checks), c, end)
    ensures Tells(t, c, end) && Drained(t, checks, end.fails)
  {
    UnderLock(DrainScript(n, checks), c, end);
    t := QueriesRun(n, checks, c, end);
  }

  lemma CheckedRuns(action: Script, command: Command, replies: nat, n: nat, checks: nat, c: Ids, end: End)
    returns (t: Transcript)
    requires Runs(Checked(action, n, checks), c, end) && ActsAs(action, command, replies)
    ensures Tells(t, c, end) && Attempted(t, command, replies, checks, end.fails)
  {
    hide Runs, Events, Execute, DrainScript;
    UnderLock(Checked(action, n, checks), c, end);
    var a, b := InTurn(Execute(action), DrainScript(n, checks), c, end);
    var first := ExecuteRuns(action, command, replies, c, a);
    if a.fails {
      t := first;
    } else {
      var rest := DrainRuns(n, checks, a.ids, b);
      TellsBoth(first, rest, c, a, b);
      t := first + rest;
      assert t[1..] == rest && t[0] == first[0];
    }
  }

  lemma QueryRuns(n: nat, command: Command, checks: nat, c: Ids, end: End) returns (t: Transcript)
    requires Runs(QueryScript(n, command, checks), c, end)
    ensures Tells(t, c, end) && Attempted(t, command, 1, checks, end.fails)
  {
    hide Runs, Events, Checked;
    forall c, end | Runs(Transact(n, command), c, end)
      ensures Exchanged(c, end, command, 1)
    {
      TransactRuns(n, command, c, end);
    }
    t := CheckedRuns(Transact(n, command), command, 1, n, checks, c, end);
  }

  lemma EstablishRuns(op: Operation, c: Ids, end: End) returns (t: Transcript)
    requires op.OpenOp? || op.RecoverOp?
    requires Runs(Establish(op.n, op.probe, op.health, op.validate, op.checks), c, end)
    ensures Tells(t, c, end) && Established(op, t, end.fails)
  {
    hide Runs, Events, TransportCall, Validation, Attempted;
    var close, validation := TransportCall(op.n, Skip), Validation(op.n, op.probe, op.health, op.validate, op.checks);
    var a, b := InTurn(close, Try(validation, Try(close, Skip, false), true), c, end);
    CallRuns(op.n, Skip, c, a);
    if a.fails {
      TellsNothing(c, end);
      t := [];
    } else {
      var x, y := Guarded(validation, Try(close, Skip, false), true, a.ids, b);
      t := ValidationRuns(op, a.ids, x);
      if x.fails { ClosingRuns(op.n, x.ids, y); }
      assert end.log == [] + x.log || end.log == [] + (x.log + []);
      assert [] + x.log == x.log && x.log + [] == x.log;
    }
  }

  lemma ClosingRuns(n: nat, c: Ids, end: End)
    requires Runs(Try(TransportCall(n, Skip), Skip, false), c, end)
    ensures end.log == [] && end.ids == c
  {
    hide TransportCall;
    var a, b := Guarded(TransportCall(n, Skip), Skip, false, c, end);
    CallRuns(n, Skip, c, a);
    if a.fails { SilentRuns(Skip, a.ids, b); }
  }

  lemma ValidationRuns(op: Operation, c: Ids, end: End) returns (t: Transcript)
    requires op.OpenOp? || op.RecoverOp?
    requires Runs(Validation(op.n, op.probe, op.health, op.validate, op.checks), c, end)
    ensures Tells(t, c, end) && Established(op, t, end.fails)
  {
    hide Events, QueryScript, Attempted;
    var probing := if op.probe then QueryScript(op.n, Other(op.health), op.checks) else Skip;
    var query := QueryScript(op.n, IDENTIFY, op.checks);
    var identifying := if op.validate then SessionOperation(query) else Skip;
    var x, y := InTurn(probing, identifying, c, end);
    var a: Transcript, b: Transcript := [], [];
    if op.probe {
      a := QueryRuns(op.n, Other(op.health), op.checks, c, x);
    } else {
      SilentRuns(Skip, c, x);
      TellsNothing(c, x);
    }
    if !x.fails {
      if op.validate {
        SessionRuns(query, x.ids, y);
        b := QueryRuns(op.n, IDENTIFY, op.checks, x.ids, y);
      } else {
        SilentRuns(Skip, x.ids, y);
        TellsNothing(x.ids, y);
      }
      TellsBoth(a, b, c, x, y);
    }
    t := a + b;
    assert x.fails ==> t == a;
    assert EstablishedAs(op, t, a, b, x.fails, end.fails);
  }

  lemma SessionRuns(body: Script, c: Ids, end: End)
    requires Runs(SessionOperation(body), c, end)
    ensures Runs(body, c, end)
  {
    UnderLock(SessionOperation(body), c, end);
    UnderLock(With(SessionLock, body), c, end);
  }

  /** Run alone, an operation leaves a transcript of its own kind, under the next free ids. */
  lemma {:induction false} RunFits(op: Operation, c: Ids, end: End) returns (t: Transcript)
    requires Runs(ScriptOf(op), c, end)
    ensures Tells(t, c, end) && Fits(op, t, end.fails)
    decreases op, 1
  {
    hide Runs, Events, Checked, TransportCall, BlockExchange, QueryScript, DrainScript, Establish, SessionOperation,
      Attempted, Exchanged, AllOf, Established;
    match op
    case WriteOp(n, text, checks) =>
      forall c, end | Runs(SendCall(n, Other(text)), c, end)
        ensures Exchanged(c, end, Other(text), 0)
      {
        SendRuns(n, Other(text), c, end);
      }
      t := CheckedRuns(SendCall(n, Other(text)), Other(text), 0, n, checks, c, end);
    case QueryOp(n, text, checks) => t := QueryRuns(n, Other(text), checks, c, end);
    case BlockQueryOp(n, text, replies, checks) =>
      forall c, end | Runs(BlockExchange(n, Other(text), replies), c, end)
        ensures Exchanged(c, end, Other(text), replies)
      {
        BlockRuns(n, Other(text), replies, c, end);
      }
      t := CheckedRuns(BlockExchange(n, Other(text), replies), Other(text), replies, n, checks, c, end);
    case DrainOp(n, checks) => t := DrainRuns(n, checks, c, end);
    case OpenOp(n, probe, health, validate, checks) =>
      SessionRuns(Establish(n, probe, health, validate, checks), c, end);
      t := EstablishRuns(op, c, end);
    case RecoverOp(n, faulted, probe, health, validate, checks) =>
      var rest := if faulted then Establish(n, probe, health, validate, checks) else Skip;
      SessionRuns(Then(STATE, rest), c, end);
      t := RecoverRuns(op, c, end);
    case CheckCommunicationOp(n, health, checks) =>
      var query := QueryScript(n, Other(health), checks);
      SessionRuns(Try(query, Skip, false), c, end);
      t := CaughtQueryRuns(n, Other(health), checks, c, end);
    case GetIdentityOp(n, cached, checks) =>
      SessionRuns(if cached then Skip else QueryScript(n, IDENTIFY, checks), c, end);
      if cached {
        SilentRuns(Skip, c, end);
        TellsNothing(c, end);
        t := [];
      } else {
        t := QueryRuns(n, IDENTIFY, checks, c, end);
      }
    case OperationLockOp(calls) =>
      UnderLock(ScriptOf(op), c, end);
      t := AllRun(calls, c, end);
    case _ =>
      QuietRuns(op, c, end);
      TellsNothing(c, end);
      t := [];
  }

  lemma QuietRuns(op: Operation, c: Ids, end: End)
    requires op.CloseOp? || op.HealthOp? || op.GenerationOp? || op.IsConnectedOp? || op.InvalidateOp?
    requires Runs(ScriptOf(op), c, end)
    ensures end.log == [] && end.ids == c
  {
    hide Runs, TransportCall;
    if op.CloseOp? {
      SessionRuns(TransportCall(op.n, Skip), c, end);
      CallRuns(op.n, Skip, c, end);
    } else if op.InvalidateOp? {
      CallRuns(op.n, Skip, c, end);
    } else {
      assert Silent(STATE);
      SilentRuns(ScriptOf(op), c, end);
    }
  }

  lemma RecoverRuns(op: Operation, c: Ids, end: End) returns (t: Transcript)
    requires op.RecoverOp?
    requires Runs(Then(STATE,
        if op.faulted then Establish(op.n, op.probe, op.health, op.validate, op.checks) else Skip), c, end)
    ensures Tells(t, c, end) && Fits(op, t, end.fails)
  {
    hide Runs, Events, Establish;
    var rest := if op.faulted then Establish(op.n, op.probe, op.health, op.validate, op.checks) else Skip;
    var a, b := InTurn(STATE, rest, c, end);
    assert Silent(STATE);
    SilentRuns(STATE, c, a);
    if !a.fails {
      assert [] + b.log == b.log;
      if op.faulted {
        t := EstablishRuns(op, a.ids, b);
        return;
      }
      SilentRuns(Skip, a.ids, b);
    }
    TellsNothing(c, end);
    t := [];
  }

  lemma CaughtQueryRuns(n: nat, command: Command, checks: nat, c: Ids, end: End) returns (t: Transcript)
    requires Runs(Try(QueryScript(n, command, checks), Skip, false), c, end)
    ensures Tells(t, c, end) && Attempted(t, command, 1, checks, true)
  {
    hide Runs, Events, QueryScript;
    var a, b := Guarded(QueryScript(n, command, checks), Skip, false, c, end);
    t := QueryRuns(n, command, checks, c, a);
    if a.fails {
      SilentRuns(Skip, a.ids, b);
      assert a.log + [] == a.log;
    }
  }

  lemma {:induction false} AllRun(calls: seq<Call>, c: Ids, end: End) returns (t: Transcript)
    requires Runs(AllOf(calls), c, end)
    ensures Tells(t, c, end) && AllFit(calls, t, end.fails)
    decreases calls, 1
  {
    if calls == [] {
      SilentRuns(Skip, c, end);
      TellsNothing(c, end);
      t := [];
    } else {
      hide Runs, Events, ScriptOf, Fits;
      var call := calls[0];
      var x, y := InTurn(ScriptOfCall(call), AllOf(calls[1..]), c, end);
      var a, f := CallRunsAlone(call, c, x);
      if x.fails {
        var b: Transcript := [];
        assert a + b == a && AllFit(calls[1..], b, true);
        assert FirstFits(calls, a, a, b, f, true);
        t := a;
      } else {
        var b := AllRun(calls[1..], x.ids, y);
        TellsBoth(a, b, c, x, y);
        assert FirstFits(calls, a + b, a, b, f, end.fails);
        t := a + b;
      }
    }
  }

  lemma {:induction false} CallRunsAlone(call: Call, c: Ids, end: End) returns (t: Transcript, f: bool)
    requires Runs(ScriptOfCall(call), c, end)
    ensures Tells(t, c, end) && CallFits(call, t, f)
    ensures call.caught || f == end.fails
    decreases call, 1
  {
    if call.caught {
      hide Events, ScriptOf;
      var a, b := Guarded(ScriptOf(call.op), Skip, false, c, end);
      hide Runs;
      t := RunFits(call.op, c, a);
      f := a.fails;
      if a.fails {
        SilentRuns(Skip, a.ids, b);
        assert a.log + [] == a.log;
      }
    } else {
      t := RunFits(call.op, c, end);
      f := end.fails;
    }
  }

  // ---- the theorems

  /** The turn's transcript is one of its operation, whole if the operation ended without raising. */
  ghost predicate Accounts(programs: Programs, turn: Turn, t: Transcript) {
    && turn.thread < |programs| && turn.index < |programs[turn.thread]|
    && exists fails :: Fits(programs[turn.thread][turn.index], t, fails) && (turn.done ==> fails == turn.raised)
  }

  lemma {:induction false} FlattenMore(ts: seq<Transcript>, t: Transcript)
    ensures Flatten(ts + [t]) == Flatten(ts) + t
  {
    FlattenAppend(ts, [t]);
    assert [t][1..] == [] && t + [] == t;
  }

  lemma TurnTranscript(programs: Programs, turn: Turn, log: seq<Event>, used: nat) returns (t: Transcript)
    requires TurnRuns(programs, turn, log, used)
    ensures log == Events(t, turn.start.used) && used == turn.start.used + |t| && Accounts(programs, turn, t)
  {
    hide Runs, Events, Fits, ScriptOf;
    var op := programs[turn.thread][turn.index];
    var end :| Runs(ScriptOf(op), turn.start, end) && end.log == log && end.ids.used == used
               && (turn.done ==> end.fails == turn.raised);
    t := RunFits(op, turn.start, end);
  }

  lemma SerialUnfolds(programs: Programs, turns: seq<Turn>, log: seq<Event>, used: nat)
    requires IsSerial(programs, turns, log, used)
    ensures turns == [] ==> log == Events(Flatten([]), 0) && used == |Flatten([])|
    ensures turns != [] ==>
              var last := turns[|turns| - 1];
              && last.from <= |log| && TurnRuns(programs, last, log[last.from..], used)
              && IsSerial(programs, turns[..|turns| - 1], log[..last.from], last.start.used)
  {
    hide TurnRuns;
  }

  lemma {:induction false} SerialTranscripts(programs: Programs, turns: seq<Turn>, log: seq<Event>, used: nat)
    returns (ts: seq<Transcript>)
    requires IsSerial(programs, turns, log, used)
    ensures |ts| == |turns| && log == Events(Flatten(ts), 0) && used == |Flatten(ts)|
    ensures forall k | 0 <= k < |turns| :: Accounts(programs, turns[k], ts[k])
    decreases |turns|
  {
    hide TurnRuns, Accounts, IsSerial, Events, Flatten;
    SerialUnfolds(programs, turns, log, used);
    if turns == [] {
      ts := [];
    } else {
      var front, last := turns[..|turns| - 1], turns[|turns| - 1];
      var before := SerialTranscripts(programs, front, log[..last.from], last.start.used);
      var t := TurnTranscript(programs, last, log[last.from..], used);
      ts := before + [t];
      FlattenMore(before, t);
      EventsAppend(Flatten(before), t, 0);
      assert log == log[..last.from] + log[last.from..];
    }
  }

  /** Over every interleaving of every set of programs, with exceptions anywhere, the log is that of whole
      operations one after another, each followed by its own error queries, in the order in which they took the
      client's lock. An operation that ended without raising is there whole; only the last may still be on its
      way. Each thread's operations come in the order of its program. */
  lemma LogIsSerial(programs: Programs, states: seq<System>, i: nat) returns (ts: seq<Transcript>)
    requires Behaviour(programs, states) && i < |states|
    ensures var s := states[i];
            && |ts| == |s.turns| && s.log == Events(Flatten(ts), 0) && s.used == |Flatten(ts)|
            && (forall k | 0 <= k < |ts| :: Accounts(programs, s.turns[k], ts[k]))
            && InOrder(s.turns)
            && (forall k | 0 <= k < |ts| - 1 :: s.turns[k].done)
            && ((forall t | 0 <= t < |s.threads| :: ClientLock !in Held(s.threads[t].frames)) ==> AllDone(s.turns))
  {
    BehaviourKeeps(programs, states, i);
    var s := states[i];
    hide IsSerial, Runs, FramesRun, Accounts, Events, Flatten, Past, InOrder, Behaviour, Held;
    if t: nat :| t < |s.threads| && Inside(s.threads[t].frames) {
      StoppedIsSerial(programs, s, t);
      InsideHolds(s.threads[t].frames);
      assert forall k | 0 <= k < |s.turns| - 1 :: s.turns[k] in s.turns[..|s.turns| - 1];
    }
    ts := SerialTranscripts(programs, s.turns, s.log, s.used);
  }

  /** The operation inside could be cut short right now. */
  lemma StoppedIsSerial(programs: Programs, s: System, t: nat)
    requires t < |s.threads| && Pending(programs, s, t)
    ensures IsSerial(programs, s.turns, s.log, s.used)
  {
    hide Runs, FramesRun, ScriptOf;
    var th, last := s.threads[t], s.turns[|s.turns| - 1];
    var end := CanStop(th.frames, th.raising, Ids(th.mine, s.used));
    assert s.log[last.from..] + end.log == s.log[last.from..];
    assert TurnRuns(programs, last, s.log[last.from..], s.used);
  }

  /** Operation ids grow along the log of every interleaving, and every write starts a new one. */
  lemma LogIdsIncrease(programs: Programs, states: seq<System>, i: nat)
    requires Behaviour(programs, states) && i < |states|
    ensures var log := states[i].log;
            forall a, b | 0 <= a < b < |log| ::
              log[a].id <= log[b].id && (log[b].Wrote? ==> log[a].id < log[b].id)
  {
    var ts := LogIsSerial(programs, states, i);
    IdsIncrease(Flatten(ts), 0);
    hide Flatten, Events, Behaviour;
  }
}
