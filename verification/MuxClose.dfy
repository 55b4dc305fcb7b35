/** When Close leaves the stream counter right: a condition on the moment it is called (internal/tunnel/mux.go). */
module MuxClose {
  import opened Basics
  import opened Tallies
  import opened Mux

  /** Nobody else has a call in flight and no stream is open, or there is nobody else. */
  ghost predicate Alone(s: State, t: nat) {
    || |s.threads| == 1
    || (s.streams == map[] && forall u :: 0 <= u < |s.threads| && u != t ==> s.threads[u].Idle?)
  }

  /** Every run from here on that falls quiet leaves the counter right. */
  ghost predicate AlwaysRight(max: int, s: State) {
    forall schedule :: Run(max, s, schedule) && Quiet(After(max, s, schedule)) ==>
      After(max, s, schedule).count == |After(max, s, schedule).streams|
  }

  // The condition suffices

  ghost predicate Winding(s: State, t: nat) {
    && s.closed && t < |s.threads| && (forall u :: 0 <= u < |s.threads| && u != t ==> s.threads[u].Idle?)
    && (|s.threads| == 1 || (s.streams == map[] && s.count == 0))
    && match s.threads[t]
       case Closing => true
       case Sweeping(todo) => forall id :: id in s.streams ==> s.streams[id] in todo
       case Idle => s.streams == map[] && s.count == 0
       case _ => false
  }

  lemma NoneLeft(streams: map<uint32, nat>)
    requires forall id :: id !in streams
    ensures streams == map[]
  {
  }

  lemma StepWinds(max: int, s: State, t: nat, a: Action)
    requires Winding(s, t) && Enabled(s, a)
    ensures Winding(Next(max, s, a), t)
  {
    if a.move.Reset? {
      NoneLeft(s.streams);
    }
  }

  lemma {:induction false} RunWinds(max: int, s: State, t: nat, schedule: seq<Action>)
    requires Winding(s, t) && Run(max, s, schedule)
    ensures Winding(After(max, s, schedule), t)
    decreases schedule
  {
    if schedule != [] {
      StepWinds(max, s, t, schedule[0]);
      hide Winding, Next, Enabled;
      RunWinds(max, Next(max, s, schedule[0]), t, schedule[1..]);
    }
  }

  lemma AloneIsRight(max: int, s: State, close: Action)
    requires Enabled(s, close) && close.move.Shut? && !s.closed && Alone(s, close.thread)
    requires Drift(s) == 0
    ensures AlwaysRight(max, Next(max, s, close))
  {
    var s1 := Next(max, s, close);
    if |s.threads| > 1 {
      TallyZero(s.threads, IsStored);
      TallyZero(s.threads, IsRemoved);
    }
    assert Winding(s1, close.thread);
    forall schedule | Run(max, s1, schedule) && Quiet(After(max, s1, schedule))
      ensures After(max, s1, schedule).count == |After(max, s1, schedule).streams|
    {
      RunWinds(max, s1, close.thread, schedule);
    }
  }

  // The condition is necessary: a goroutine sets the counter wrong

  function Rank(t: Thread): nat {
    match t
    case Checked => 4
    case Admitted => 3
    case HasId(_) => 2
    case Stored => 1
    case Removed => 1
    case _ => 0
  }

  function Onward(t: Thread): Move
    requires Rank(t) > 0
  {
    match t
    case Checked => CheckRoom
    case Admitted => TakeId
    case HasId(_) => Store
    case Stored => CountUp
    case _ => CountDown
  }

  /** One call runs to its end. */
  lemma GoHome(max: int, s: State, t: nat) returns (schedule: seq<Action>, end: State)
    requires t < |s.threads| && !IsCloser(s.threads[t])
    ensures Reaches(max, s, end, schedule)
    ensures end.threads == s.threads[t := Idle] && end.closed == s.closed
    ensures end.issued <= s.issued + if Rank(s.threads[t]) >= 3 then 1 else 0
    decreases Rank(s.threads[t])
  {
    Stay(max, s);
    if s.threads[t].Idle? {
      schedule, end := [], s;
      assert s.threads[t := Idle] == s.threads;
    } else {
      var a := Action(t, Onward(s.threads[t]));
      var s1 := Next(max, s, a);
      Then(max, s, s, [], a);
      var rest;
      rest, end := GoHome(max, s1, t);
      Append(max, s, s1, end, [] + [a], rest);
      schedule := [] + [a] + rest;
      assert s1.threads[t := Idle] == s.threads[t := Idle];
    }
  }

  /** All calls run to their ends, one after another. */
  lemma Settle(max: int, s: State, t: nat) returns (schedule: seq<Action>, end: State)
    requires t <= |s.threads|
    requires forall u :: 0 <= u < t ==> s.threads[u].Idle?
    requires forall u :: t <= u < |s.threads| ==> !IsCloser(s.threads[u])
    ensures Reaches(max, s, end, schedule) && Quiet(end) && end.issued <= s.issued + |s.threads| - t
    decreases |s.threads| - t
  {
    hide Run, After, Next;
    if t == |s.threads| {
      schedule, end := [], s;
      Stay(max, s);
    } else {
      var p, s1 := GoHome(max, s, t);
      var q;
      q, end := Settle(max, s1, t + 1);
      Append(max, s, s1, end, p, q);
      schedule := p + q;
    }
  }

  /** A reset that finds the counter and the drift apart leaves them apart for good. */
  lemma WrongForGood(max: int, s: State, t: nat)
    requires Numbered(s) && OneCloser(s) && t < |s.threads|
    requires Enabled(s, Action(t, Reset)) && Drift(s) != s.count && s.issued + |s.threads| <= IDS
    ensures !AlwaysRight(max, s)
  {
    var a := Action(t, Reset);
    var s1 := Next(max, s, a);
    StepKeepsNumbered(max, s, a);
    StepDrifts(max, s, a);
    assert Shuttered(s1);
    var p, end := Settle(max, s1, 0);
    ShutteredForGood(max, s1, p);
    RunDrifts(max, s1, p);
    TallyZero(end.threads, IsStored);
    TallyZero(end.threads, IsRemoved);
    Stay(max, s);
    Then(max, s, s, [], a);
    Append(max, s, s1, end, [] + [a], p);
  }

  lemma WrongBefore(max: int, s: State, middle: State, schedule: seq<Action>)
    requires Reaches(max, s, middle, schedule) && !AlwaysRight(max, middle)
    ensures !AlwaysRight(max, s)
  {
    var rest :| Run(max, middle, rest) && Quiet(After(max, middle, rest))
      && After(max, middle, rest).count != |After(max, middle, rest).streams|;
    var end := After(max, middle, rest);
    Append(max, s, middle, end, schedule, rest);
    assert Run(max, s, schedule + rest) && After(max, s, schedule + rest) == end;
  }

  ghost predicate Kept(s: State, end: State) {
    && |end.threads| == |s.threads| && Numbered(end) && OneCloser(end)
  }

  /** Close's Range deletes what is left to delete. */
  lemma SweepOn(max: int, s: State, t: nat) returns (schedule: seq<Action>, end: State)
    requires Numbered(s) && OneCloser(s) && t < |s.threads| && s.threads[t].Sweeping?
    ensures Reaches(max, s, end, schedule) && Kept(s, end)
    ensures end == s.(streams := map[]) && Drift(end) == Drift(s) + |s.streams|
    decreases |s.streams|
  {
    Stay(max, s);
    if id :| id in s.streams {
      var a := Action(t, Sweep(id));
      var s1 := Next(max, s, a);
      StepKeepsNumbered(max, s, a);
      StepKeepsOneCloser(max, s, a);
      StepDrifts(max, s, a);
      assert s1.streams.Keys == s.streams.Keys - {id};
      assert s1.threads == s.threads;
      Then(max, s, s, [], a);
      var rest;
      rest, end := SweepOn(max, s1, t);
      Append(max, s, s1, end, [] + [a], rest);
      schedule := [] + [a] + rest;
    } else {
      NoneLeft(s.streams);
      schedule, end := [], s;
    }
  }

  lemma SweepOut(max: int, s: State, t: nat) returns (schedule: seq<Action>, end: State)
    requires Numbered(s) && OneCloser(s) && t < |s.threads| && s.threads[t].Closing?
    ensures Reaches(max, s, end, schedule) && Kept(s, end)
    ensures end == s.(streams := map[], threads := s.threads[t := Sweeping(s.streams.Values)])
    ensures Drift(end) == Drift(s) + |s.streams|
  {
    var a := Action(t, Survey);
    var s1 := Next(max, s, a);
    StepKeepsNumbered(max, s, a);
    StepKeepsOneCloser(max, s, a);
    StepDrifts(max, s, a);
    Stay(max, s);
    Then(max, s, s, [], a);
    hide Run, After, Next, Numbered, OneCloser, Drift, Enabled;
    var rest;
    rest, end := SweepOn(max, s1, t);
    Append(max, s, s1, end, [] + [a], rest);
    schedule := [] + [a] + rest;
  }

  /** Close finds the counter different from the number of streams, and sweeps them out. */
  lemma WrongIfUneven(max: int, s: State, t: nat)
    requires Numbered(s) && OneCloser(s) && t < |s.threads| && s.threads[t].Closing?
    requires Drift(s) == 0 && s.count != |s.streams| && s.issued + |s.threads| <= IDS
    ensures !AlwaysRight(max, s)
  {
    var p, end := SweepOut(max, s, t);
    assert Enabled(end, Action(t, Reset));
    hide Numbered, OneCloser, Drift, AlwaysRight, Run, After;
    WrongForGood(max, end, t);
    WrongBefore(max, s, end, p);
  }

  /** A stream is stored and counted behind the Range of Close. */
  lemma StoreLate(max: int, s: State, t: nat, u: nat) returns (schedule: seq<Action>, end: State)
    requires Numbered(s) && OneCloser(s) && t < |s.threads| && s.threads[t].Sweeping? && s.streams == map[]
    requires u < |s.threads| && s.threads[u].HasId? && s.threads[u].serial !in s.threads[t].todo
    ensures Reaches(max, s, end, schedule) && Kept(s, end) && end.issued == s.issued
    ensures end.count == s.count + 1 && Drift(end) == Drift(s) && Enabled(end, Action(t, Reset))
  {
    var a, b := Action(u, Store), Action(u, CountUp);
    var s1 := Next(max, s, a);
    end := Next(max, s1, b);
    StepKeepsNumbered(max, s, a);
    StepKeepsNumbered(max, s1, b);
    StepKeepsOneCloser(max, s, a);
    StepKeepsOneCloser(max, s1, b);
    StepDrifts(max, s, a);
    StepDrifts(max, s1, b);
    Stay(max, s);
    Then(max, s, s, [], a);
    Then(max, s, s1, [] + [a], b);
    schedule := [] + [a] + [b];
    hide Numbered, OneCloser, Drift;
  }

  /** Close has swept everything out when another goroutine stores and counts its stream. */
  lemma WrongIfLate(max: int, s: State, t: nat, u: nat)
    requires Numbered(s) && OneCloser(s) && t < |s.threads| && s.threads[t].Closing? && u < |s.threads| && s.threads[u].HasId?
    requires Drift(s) == 0 && s.count == |s.streams| && s.issued + |s.threads| <= IDS
    ensures !AlwaysRight(max, s)
  {
    assert s.threads[u].serial !in s.streams.Values;
    hide Numbered, OneCloser, Drift, AlwaysRight, Run, After;
    var p, s1 := SweepOut(max, s, t);
    var q, s2 := StoreLate(max, s1, t, u);
    Append(max, s, s1, s2, p, q);
    WrongForGood(max, s2, t);
    WrongBefore(max, s, s2, p + q);
  }

  lemma WrongAfter(max: int, s: State, a: Action)
    requires Enabled(s, a) && !AlwaysRight(max, Next(max, s, a))
    ensures !AlwaysRight(max, s)
  {
    hide AlwaysRight, Next, Enabled;
    Stay(max, s);
    Then(max, s, s, [], a);
    WrongBefore(max, s, Next(max, s, a), [] + [a]);
  }

  /** A step that keeps the drift, and what it does to the counter and to the map. */
  lemma Balanced(max: int, s: State, t: nat, a: Action) returns (s': State)
    requires Numbered(s) && OneCloser(s) && Enabled(s, a) && t < |s.threads| && t != a.thread && s.threads[t].Closing?
    requires !a.move.Sweep? && !a.move.Reset? && !a.move.Store? && Drift(s) == 0
    ensures s' == Next(max, s, a) && Numbered(s') && OneCloser(s') && |s'.threads| == |s.threads|
    ensures Drift(s') == 0 && s'.threads[t].Closing?
  {
    s' := Next(max, s, a);
    StepKeepsNumbered(max, s, a);
    StepKeepsOneCloser(max, s, a);
    StepDrifts(max, s, a);
  }

  /** While Close is about to begin its Range, any other goroutine with a call in flight, or with a stream to close, can
      set the counter wrong. */
  lemma WrongByOther(max: int, s: State, t: nat, u: nat)
    requires max >= 1 && Numbered(s) && OneCloser(s) && t < |s.threads| && s.threads[t].Closing? && Drift(s) == 0
    requires u < |s.threads| && u != t && (s.streams != map[] || !s.threads[u].Idle?)
    requires s.issued + |s.threads| < IDS
    ensures !AlwaysRight(max, s)
    decreases Rank(s.threads[u])
  {
    if s.count != |s.streams| {
      WrongIfUneven(max, s, t);
    } else if s.threads[u].HasId? {
      WrongIfLate(max, s, t, u);
    } else if s.threads[u].Idle? {
      RemoveOne(max, s, t, u);
    } else {
      var a := Action(u, Onward(s.threads[u]));
      var s1 := Balanced(max, s, t, a);
      assert s.threads[u].Checked? && s1.threads[u].Idle? ==> |s.streams| >= 1;
      hide Numbered, OneCloser, Drift, AlwaysRight;
      if s1.count != |s1.streams| {
        WrongIfUneven(max, s1, t);
      } else if s1.threads[u].HasId? {
        WrongIfLate(max, s1, t, u);
      } else {
        WrongByOther(max, s1, t, u);
      }
      WrongAfter(max, s, a);
    }
  }

  lemma RemoveOne(max: int, s: State, t: nat, u: nat)
    requires Numbered(s) && OneCloser(s) && t < |s.threads| && s.threads[t].Closing? && Drift(s) == 0
    requires u < |s.threads| && u != t && s.threads[u].Idle? && s.streams != map[] && s.count == |s.streams|
    requires s.issued + |s.threads| <= IDS
    ensures !AlwaysRight(max, s)
  {
    if id :| id in s.streams {
      var a := Action(u, Remove(id));
      var s1 := Balanced(max, s, t, a);
      assert s1.streams.Keys == s.streams.Keys - {id};
      assert |s1.streams| == |s.streams| - 1;
      hide Numbered, OneCloser, Drift, AlwaysRight;
      WrongIfUneven(max, s1, t);
      WrongAfter(max, s, a);
    } else {
      NoneLeft(s.streams);
    }
  }

  // The condition at the call

  /** As long as the mux is not closed, no Close has swept or reset anything. */
  lemma {:induction false} OpenSoFar(max: int, s: State, schedule: seq<Action>)
    requires OneCloser(s) && Run(max, s, schedule) && !After(max, s, schedule).closed
    ensures NoReset(schedule) && NoSweep(schedule) && !s.closed
    decreases schedule
  {
    if schedule != [] {
      StepKeepsOneCloser(max, s, schedule[0]);
      OpenSoFar(max, Next(max, s, schedule[0]), schedule[1..]);
    }
  }

  lemma NoRoomIsRight(max: int, s: State, close: Action)
    requires max <= 0 && Unused(s) && Enabled(s, close) && close.move.Shut?
    ensures AlwaysRight(max, Next(max, s, close))
  {
    var s1 := Next(max, s, close);
    assert Streams(s, close) == map[];
    forall schedule | Run(max, s1, schedule) && Quiet(After(max, s1, schedule))
      ensures After(max, s1, schedule).count == |After(max, s1, schedule).streams|
    {
      RunUnused(max, s1, schedule);
    }
  }

  /** Close leaves the counter right in every run that then falls quiet exactly when, at the moment of the call, there is
      only one goroutine, or no stream is open and no other goroutine has a call in flight, or there never is any room. */
  lemma CloseExactly(max: int, n: nat, before: seq<Action>, close: Action)
    requires Run(max, Start(n), before)
    requires var s := After(max, Start(n), before);
      Enabled(s, close) && close.move.Shut? && !s.closed && s.issued + n < IDS
    ensures var s := After(max, Start(n), before);
      AlwaysRight(max, Next(max, s, close)) <==> max <= 0 || Alone(s, close.thread)
  {
    StartIsGood(max, n);
    OpenSoFar(max, Start(n), before);
    RunDrifts(max, Start(n), before);
    RunKeepsGood(max, Start(n), before);
    SameThreads(max, Start(n), before);
    if max <= 0 {
      RunUnused(max, Start(n), before);
    }
    var s := After(max, Start(n), before);
    hide Numbered, OneCloser, Drift, AlwaysRight, Run, After, NoReset, NoSweep, Unused;
    if max <= 0 {
      NoRoomIsRight(max, s, close);
    } else if Alone(s, close.thread) {
      AloneIsRight(max, s, close);
    } else {
      NotAlone(max, s, close);
    }
  }

  lemma {:induction false} SameThreads(max: int, s: State, schedule: seq<Action>)
    requires Run(max, s, schedule)
    ensures |After(max, s, schedule).threads| == |s.threads|
    decreases schedule
  {
    if schedule != [] {
      SameThreads(max, Next(max, s, schedule[0]), schedule[1..]);
    }
  }

  lemma NotAlone(max: int, s: State, close: Action)
    requires max >= 1 && Numbered(s) && OneCloser(s) && Drift(s) == 0 && s.issued + |s.threads| < IDS
    requires Enabled(s, close) && close.move.Shut? && !s.closed && !Alone(s, close.thread)
    ensures !AlwaysRight(max, Next(max, s, close))
  {
    var s1 := Next(max, s, close);
    StepKeepsNumbered(max, s, close);
    StepKeepsOneCloser(max, s, close);
    StepDrifts(max, s, close);
    var u: nat;
    if v: nat :| v < |s.threads| && v != close.thread && !s.threads[v].Idle? {
      u := v;
    } else {
      u := if close.thread == 0 then 1 else 0;
    }
    hide Numbered, OneCloser, Drift, AlwaysRight;
    WrongByOther(max, s1, close.thread, u);
  }
}
