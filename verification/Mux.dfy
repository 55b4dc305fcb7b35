/** The stream table of internal/tunnel/mux.go under any interleaving of the atomic steps of its calls.
    The map and the counter kept beside it are separate atomics, so they agree only up to the calls in flight.
 */
module Mux {
  import opened Basics
  import opened Tallies

  const IDS: nat := 0x1_0000_0000

  /** Where a goroutine is between two atomic steps. */
  datatype Thread =
    | Idle
    | Checked             // OpenStream has seen the flag clear,
    | Admitted            // and room under MaxStreams,
    | HasId(serial: nat)  // and drawn from nextID,
    | Stored              // and put its stream in the map
    | Removed             // CloseStream has taken a stream out of the map
    | Closing             // Close has set the flag,
    | Sweeping(todo: set<nat>)  // and its Range has begun: it will not miss these streams

  /** Streams are numbered in the order of nextID.Add; the id of a stream is its number as a uint32. */
  datatype State = State(streams: map<uint32, nat>, count: int, issued: nat, closed: bool, threads: seq<Thread>)

  datatype Move =
    | CheckOpen | CheckRoom | TakeId | Store | CountUp
    | Remove(id: uint32) | CountDown
    | Shut | Survey | Sweep(id: uint32) | Reset

  datatype Action = Action(thread: nat, move: Move)

  function Id(serial: nat): uint32 {
    serial % IDS
  }

  function Start(n: nat): State {
    State(map[], 0, 0, false, seq(n, _ => Idle))
  }

  ghost predicate Enabled(s: State, a: Action) {
    && a.thread < |s.threads|
    && var here := s.threads[a.thread];
       match a.move
       case CheckOpen => here.Idle?
       case CheckRoom => here.Checked?
       case TakeId => here.Admitted?
       case Store => here.HasId?
       case CountUp => here.Stored?
       case Remove(_) => here.Idle?
       case CountDown => here.Removed?
       case Shut => here.Idle?
       case Survey => here.Closing?
       case Sweep(id) => here.Sweeping? && id in s.streams
       case Reset => here.Sweeping? && forall id :: id in s.streams ==> s.streams[id] !in here.todo
  }

  /** Where the acting thread is after its step. */
  ghost function Goes(max: int, s: State, a: Action): Thread
    requires Enabled(s, a)
  {
    match a.move
    case CheckOpen => if s.closed then Idle else Checked
    case CheckRoom => if s.count >= max then Idle else Admitted
    case TakeId => HasId(s.issued + 1)
    case Store => Stored
    case CountUp => Idle
    case Remove(id) => if id in s.streams then Removed else Idle
    case CountDown => Idle
    case Shut => if s.closed then Idle else Closing
    case Survey => Sweeping(s.streams.Values)
    case Sweep(_) => s.threads[a.thread]
    case Reset => Idle
  }

  ghost function Streams(s: State, a: Action): map<uint32, nat>
    requires Enabled(s, a)
  {
    match a.move
    case Store => var serial := s.threads[a.thread].serial; s.streams[Id(serial) := serial]
    case Remove(id) => s.streams - {id}
    case Sweep(id) => s.streams - {id}
    case _ => s.streams
  }

  ghost function Count(s: State, move: Move): int {
    match move
    case CountUp => s.count + 1
    case CountDown => s.count - 1
    case Reset => 0
    case _ => s.count
  }

  ghost function Next(max: int, s: State, a: Action): State
    requires Enabled(s, a)
  {
    State(
      Streams(s, a), Count(s, a.move),
      if a.move.TakeId? then s.issued + 1 else s.issued,
      s.closed || a.move.Shut?,
      s.threads[a.thread := Goes(max, s, a)])
  }

  ghost predicate Run(max: int, s: State, schedule: seq<Action>)
    decreases schedule
  {
    schedule != [] ==> Enabled(s, schedule[0]) && Run(max, Next(max, s, schedule[0]), schedule[1..])
  }

  ghost function After(max: int, s: State, schedule: seq<Action>): State
    requires Run(max, s, schedule)
    decreases schedule
  {
    if schedule == [] then s else After(max, Next(max, s, schedule[0]), schedule[1..])
  }

  // Counting the calls in flight

  function IsStored(t: Thread): int {
    if t.Stored? then 1 else 0
  }

  function IsRemoved(t: Thread): int {
    if t.Removed? then 1 else 0
  }

  function IsAdmitted(t: Thread): int {
    if t.Admitted? || t.HasId? || t.Stored? then 1 else 0
  }

  function Uncounted(s: State): int {
    Tally(s.threads, IsStored)
  }

  function StillCounted(s: State): int {
    Tally(s.threads, IsRemoved)
  }

  /** How far the counter is ahead of the map, the calls in flight taken into account. */
  function Drift(s: State): int {
    s.count - (|s.streams| - Uncounted(s) + StillCounted(s))
  }

  // Numbers, ids and the one closer

  ghost predicate Numbered(s: State) {
    && (forall id :: id in s.streams ==> id == Id(s.streams[id]) && 1 <= s.streams[id] <= s.issued)
    && (forall t :: 0 <= t < |s.threads| && s.threads[t].HasId? ==> 1 <= s.threads[t].serial <= s.issued)
    && (forall t, id :: 0 <= t < |s.threads| && s.threads[t].HasId? && id in s.streams ==> s.streams[id] != s.threads[t].serial)
    && (forall t, u :: 0 <= t < u < |s.threads| && s.threads[t].HasId? && s.threads[u].HasId? ==>
          s.threads[t].serial != s.threads[u].serial)
  }

  predicate IsCloser(t: Thread) {
    t.Closing? || t.Sweeping?
  }

  ghost predicate OneCloser(s: State) {
    && (forall t :: 0 <= t < |s.threads| && IsCloser(s.threads[t]) ==> s.closed)
    && (forall t, u :: 0 <= t < u < |s.threads| ==> !(IsCloser(s.threads[t]) && IsCloser(s.threads[u])))
  }

  lemma StepKeepsNumbered(max: int, s: State, a: Action)
    requires Numbered(s) && Enabled(s, a)
    ensures Numbered(Next(max, s, a))
  {
    var s' := Next(max, s, a);
    forall t | 0 <= t < |s'.threads| && s'.threads[t].HasId? ensures t == a.thread || s.threads[t] == s'.threads[t] {
    }
    forall id | id in s'.streams ensures (id in s.streams && s.streams[id] == s'.streams[id]) || a.move.Store? {
    }
  }

  lemma StepKeepsOneCloser(max: int, s: State, a: Action)
    requires OneCloser(s) && Enabled(s, a)
    ensures OneCloser(Next(max, s, a))
  {
  }

  /** Until uint32 wraps round, a stream about to be stored has an id that no other stream has. */
  lemma FreshId(s: State, t: nat)
    requires Numbered(s) && s.issued <= IDS && t < |s.threads| && s.threads[t].HasId?
    ensures Id(s.threads[t].serial) !in s.streams
    ensures forall u :: 0 <= u < |s.threads| && u != t && s.threads[u].HasId? ==>
              Id(s.threads[u].serial) != Id(s.threads[t].serial)
  {
  }

  /** What one step does to the drift: only storing over a stream, sweeping and resetting change it. */
  lemma StepDrifts(max: int, s: State, a: Action)
    requires Enabled(s, a)
    ensures a.move.Reset? ==> Drift(Next(max, s, a)) == Uncounted(s) - |s.streams| - StillCounted(s)
    ensures a.move.Sweep? ==> Drift(Next(max, s, a)) == Drift(s) + 1
    ensures a.move.Store? ==> Drift(Next(max, s, a)) == Drift(s) + if Id(s.threads[a.thread].serial) in s.streams then 1 else 0
    ensures !a.move.Reset? && !a.move.Sweep? && !a.move.Store? ==> Drift(Next(max, s, a)) == Drift(s)
  {
    var there := Goes(max, s, a);
    TallyUpdate(s.threads, IsStored, a.thread, there);
    TallyUpdate(s.threads, IsRemoved, a.thread, there);
    if a.move.Remove? || a.move.Sweep? {
      assert (s.streams - {a.move.id}).Keys == s.streams.Keys - {a.move.id};
    }
  }

  // Whole runs

  predicate NoReset(schedule: seq<Action>) {
    forall i :: 0 <= i < |schedule| ==> !schedule[i].move.Reset?
  }

  predicate NoSweep(schedule: seq<Action>) {
    forall i :: 0 <= i < |schedule| ==> !schedule[i].move.Sweep?
  }

  lemma {:induction false} RunDrifts(max: int, s: State, schedule: seq<Action>)
    requires Numbered(s) && Run(max, s, schedule) && NoReset(schedule)
    ensures Numbered(After(max, s, schedule)) && s.issued <= After(max, s, schedule).issued
    ensures Drift(s) <= Drift(After(max, s, schedule))
    ensures NoSweep(schedule) && After(max, s, schedule).issued <= IDS ==> Drift(After(max, s, schedule)) == Drift(s)
    decreases schedule
  {
    if schedule != [] {
      var a := schedule[0];
      var s1 := Next(max, s, a);
      StepKeepsNumbered(max, s, a);
      StepDrifts(max, s, a);
      RunDrifts(max, s1, schedule[1..]);
      if a.move.Store? && s.issued <= IDS {
        FreshId(s, a.thread);
      }
    }
  }

  /** The calls past the room check fit between the counter and the limit. */
  predicate Room(max: int, s: State) {
    s.count + Tally(s.threads, IsAdmitted) <= Max(max, 0) + |s.threads| - 1
  }

  lemma {:induction false} RunKeepsRoom(max: int, s: State, schedule: seq<Action>)
    requires Room(max, s) && Run(max, s, schedule) && NoReset(schedule)
    ensures Room(max, After(max, s, schedule)) && |After(max, s, schedule).threads| == |s.threads|
    decreases schedule
  {
    if schedule != [] {
      var a := schedule[0];
      TallyUpdate(s.threads, IsAdmitted, a.thread, Goes(max, s, a));
      TallyBetween(Next(max, s, a).threads, IsAdmitted, 0, 1);
      RunKeepsRoom(max, Next(max, s, a), schedule[1..]);
    }
  }

  lemma StartIsGood(max: int, n: nat)
    ensures Numbered(Start(n)) && OneCloser(Start(n)) && Drift(Start(n)) == 0
    ensures n >= 1 ==> Room(max, Start(n))
  {
    TallyZero(Start(n).threads, IsStored);
    TallyZero(Start(n).threads, IsRemoved);
    TallyZero(Start(n).threads, IsAdmitted);
  }

  /** Until Close deletes a stream, the counter is the size of the map, less the streams stored and not yet counted,
      plus those deleted and still counted. */
  lemma CounterTracksMap(max: int, n: nat, schedule: seq<Action>)
    requires Run(max, Start(n), schedule) && NoReset(schedule) && NoSweep(schedule)
    requires After(max, Start(n), schedule).issued <= IDS
    ensures var s := After(max, Start(n), schedule); s.count == |s.streams| - Uncounted(s) + StillCounted(s)
  {
    StartIsGood(max, n);
    RunDrifts(max, Start(n), schedule);
  }

  /** With no room at all, no call ever gets past the room check. */
  ghost predicate Unused(s: State) {
    && s.streams == map[] && s.count == 0
    && forall t :: 0 <= t < |s.threads| ==> s.threads[t].Idle? || s.threads[t].Checked? || IsCloser(s.threads[t])
  }

  lemma {:induction false} RunUnused(max: int, s: State, schedule: seq<Action>)
    requires max <= 0 && Unused(s) && Run(max, s, schedule)
    ensures Unused(After(max, s, schedule))
    decreases schedule
  {
    if schedule != [] {
      assert Streams(s, schedule[0]) == map[];
      RunUnused(max, Next(max, s, schedule[0]), schedule[1..]);
    }
  }

  /** Until Close resets the counter, n goroutines never hold more than n - 1 streams above a positive limit, and none at
      all under any other. */
  lemma StreamsBounded(max: int, n: nat, schedule: seq<Action>)
    requires n >= 1 && Run(max, Start(n), schedule) && NoReset(schedule)
    ensures |After(max, Start(n), schedule).streams| <= if max <= 0 then 0 else max + n - 1
  {
    if max <= 0 {
      RunUnused(max, Start(n), schedule);
    }
    StartIsGood(max, n);
    RunDrifts(max, Start(n), schedule);
    RunKeepsRoom(max, Start(n), schedule);
    var threads := After(max, Start(n), schedule).threads;
    TallyRest(threads, threads, IsAdmitted, IsStored, 0);
    TallyBetween(threads, IsRemoved, 0, 1);
  }

  lemma {:induction false} IssuedGrows(max: int, s: State, schedule: seq<Action>)
    requires Run(max, s, schedule)
    ensures s.issued <= After(max, s, schedule).issued
    decreases schedule
  {
    if schedule != [] {
      IssuedGrows(max, Next(max, s, schedule[0]), schedule[1..]);
    }
  }

  /** The ids two calls draw, however far apart in the run, differ unless uint32 has wrapped round in between. */
  lemma IdsDistinct(max: int, s: State, first: Action, between: seq<Action>, second: Action)
    requires first.move.TakeId? && Enabled(s, first) && Run(max, Next(max, s, first), between)
    requires second.move.TakeId? && Enabled(After(max, Next(max, s, first), between), second)
    requires After(max, Next(max, s, first), between).issued < s.issued + IDS
    ensures
      var s1 := Next(max, s, first);
      var s2 := Next(max, After(max, s1, between), second);
      Id(s1.threads[first.thread].serial) != Id(s2.threads[second.thread].serial)
  {
    IssuedGrows(max, Next(max, s, first), between);
  }

  /** How many ids a schedule draws. */
  function Draws(schedule: seq<Action>): nat {
    if schedule == [] then 0 else (if schedule[0].move.TakeId? then 1 else 0) + Draws(schedule[1..])
  }

  lemma {:induction false} IssuedIs(max: int, s: State, schedule: seq<Action>)
    requires Run(max, s, schedule)
    ensures After(max, s, schedule).issued == s.issued + Draws(schedule)
    decreases schedule
  {
    if schedule != [] {
      IssuedIs(max, Next(max, s, schedule[0]), schedule[1..]);
    }
  }

  /** The n-th id drawn is n as a uint32, and the stream put into the table next is there under that id. */
  lemma NthId(max: int, n: nat, schedule: seq<Action>, draw: Action)
    requires Run(max, Start(n), schedule) && draw.move.TakeId? && Enabled(After(max, Start(n), schedule), draw)
    ensures var s := Next(max, After(max, Start(n), schedule), draw);
      && Enabled(s, Action(draw.thread, Store))
      && ((Draws(schedule) + 1) % 0x1_0000_0000) in Next(max, s, Action(draw.thread, Store)).streams
  {
    IssuedIs(max, Start(n), schedule);
  }

  /** Some call takes the stream with this id out of the table. */
  predicate TakenOut(schedule: seq<Action>, id: uint32) {
    exists i :: 0 <= i < |schedule| && (schedule[i].move == Remove(id) || schedule[i].move == Sweep(id))
  }

  lemma TakenOutFirst(schedule: seq<Action>, id: uint32)
    requires schedule != []
    ensures TakenOut(schedule, id) <==>
      schedule[0].move == Remove(id) || schedule[0].move == Sweep(id) || TakenOut(schedule[1..], id)
  {
    var rest := schedule[1..];
    if i :| 0 <= i < |rest| && (rest[i].move == Remove(id) || rest[i].move == Sweep(id)) {
      assert schedule[i + 1] == rest[i];
    }
    if i :| 0 <= i < |schedule| && (schedule[i].move == Remove(id) || schedule[i].move == Sweep(id)) && i > 0 {
      assert rest[i - 1] == schedule[i];
    }
  }

  /** An id that has been drawn and is in no call's hands and not in the table. */
  ghost predicate Gone(s: State, serial: nat) {
    && 1 <= serial <= s.issued && Id(serial) !in s.streams
    && forall t :: 0 <= t < |s.threads| && s.threads[t].HasId? ==> Id(s.threads[t].serial) != Id(serial)
  }

  lemma StaysGone(max: int, s: State, a: Action, serial: nat)
    requires Gone(s, serial) && Enabled(s, a) && Next(max, s, a).issued <= IDS
    ensures Gone(Next(max, s, a), serial)
  {
    if a.move.TakeId? {
      assert serial < s.issued + 1 <= IDS;
    }
  }

  lemma {:induction false} GoneForGood(max: int, s: State, schedule: seq<Action>, serial: nat)
    requires Gone(s, serial) && Run(max, s, schedule) && After(max, s, schedule).issued <= IDS
    ensures Id(serial) !in After(max, s, schedule).streams
    decreases schedule
  {
    if schedule != [] {
      IssuedGrows(max, Next(max, s, schedule[0]), schedule[1..]);
      StaysGone(max, s, schedule[0], serial);
      hide Gone, Next, Enabled, Id;
      GoneForGood(max, Next(max, s, schedule[0]), schedule[1..], serial);
    } else {
      hide Id;
    }
  }

  lemma StepTakes(max: int, s: State, a: Action, id: uint32)
    requires Numbered(s) && Enabled(s, a) && s.issued <= IDS && id in s.streams
    requires a.move == Remove(id) || a.move == Sweep(id)
    ensures Gone(Next(max, s, a), s.streams[id]) && id == Id(s.streams[id])
  {
    forall t | 0 <= t < |s.threads| && s.threads[t].HasId? ensures Id(s.threads[t].serial) != id {
      FreshId(s, t);
    }
    hide Id;
  }

  lemma StepLeaves(max: int, s: State, a: Action, id: uint32)
    requires Numbered(s) && Enabled(s, a) && s.issued <= IDS && id in s.streams
    requires a.move != Remove(id) && a.move != Sweep(id)
    ensures var s' := Next(max, s, a); id in s'.streams && s'.streams[id] == s.streams[id]
  {
    if a.move.Store? {
      FreshId(s, a.thread);
    }
    hide Id, Numbered;
  }

  /** Until ids wrap round, an open stream stays in the table, the same stream under the same id, exactly until CloseStream is
      called for that id or Close gets to it; and once out it never comes back. */
  lemma {:induction false} StaysExactly(max: int, s: State, schedule: seq<Action>, id: uint32)
    requires Numbered(s) && Run(max, s, schedule) && After(max, s, schedule).issued <= IDS && id in s.streams
    ensures id in After(max, s, schedule).streams <==> !TakenOut(schedule, id)
    ensures id in After(max, s, schedule).streams ==> After(max, s, schedule).streams[id] == s.streams[id]
    decreases schedule
  {
    if schedule != [] {
      var s1 := Next(max, s, schedule[0]);
      IssuedGrows(max, s, schedule);
      TakenOutFirst(schedule, id);
      StepKeepsNumbered(max, s, schedule[0]);
      hide Numbered, Gone, Next, Enabled, TakenOut, Id;
      if schedule[0].move == Remove(id) || schedule[0].move == Sweep(id) {
        StepTakes(max, s, schedule[0], id);
        GoneForGood(max, s1, schedule[1..], s.streams[id]);
      } else {
        StepLeaves(max, s, schedule[0], id);
        StaysExactly(max, s1, schedule[1..], id);
      }
    }
  }

  // Close

  ghost predicate Shuttered(s: State) {
    s.closed && forall t :: 0 <= t < |s.threads| ==> !IsCloser(s.threads[t])
  }

  lemma {:induction false} ShutteredForGood(max: int, s: State, schedule: seq<Action>)
    requires Shuttered(s) && Run(max, s, schedule)
    ensures NoReset(schedule) && NoSweep(schedule)
    decreases schedule
  {
    if schedule != [] {
      ShutteredForGood(max, Next(max, s, schedule[0]), schedule[1..]);
    }
  }

  lemma {:induction false} RunKeepsGood(max: int, s: State, schedule: seq<Action>)
    requires Numbered(s) && OneCloser(s) && Run(max, s, schedule)
    ensures Numbered(After(max, s, schedule)) && OneCloser(After(max, s, schedule))
    decreases schedule
  {
    if schedule != [] {
      StepKeepsNumbered(max, s, schedule[0]);
      StepKeepsOneCloser(max, s, schedule[0]);
      RunKeepsGood(max, Next(max, s, schedule[0]), schedule[1..]);
    }
  }

  ghost predicate Quiet(s: State) {
    forall t :: 0 <= t < |s.threads| ==> s.threads[t].Idle?
  }

  /** Once Close has reset the counter and every call has returned, the counter is right
      exactly when the reset found as many streams in the map and still counted as were stored and not yet counted. */
  lemma CountAfterClose(max: int, n: nat, before: seq<Action>, reset: Action, after: seq<Action>)
    requires Run(max, Start(n), before)
    requires reset.move.Reset? && Enabled(After(max, Start(n), before), reset)
    requires Run(max, Next(max, After(max, Start(n), before), reset), after)
    requires var end := After(max, Next(max, After(max, Start(n), before), reset), after); Quiet(end) && end.issued <= IDS
    ensures
      var s := After(max, Start(n), before);
      var end := After(max, Next(max, s, reset), after);
      && end.count == |end.streams| + Uncounted(s) - |s.streams| - StillCounted(s)
      && (end.count == |end.streams| <==> Uncounted(s) == |s.streams| + StillCounted(s))
  {
    StartIsGood(max, n);
    RunKeepsGood(max, Start(n), before);
    var s := After(max, Start(n), before);
    var s1 := Next(max, s, reset);
    StepKeepsNumbered(max, s, reset);
    StepDrifts(max, s, reset);
    ShutteredForGood(max, s1, after);
    RunDrifts(max, s1, after);
    var end := After(max, s1, after);
    TallyZero(end.threads, IsStored);
    TallyZero(end.threads, IsRemoved);
  }

  // The bound is reached, and the counter can end up wrong

  ghost predicate Reaches(max: int, s: State, end: State, schedule: seq<Action>) {
    Run(max, s, schedule) && After(max, s, schedule) == end
  }

  lemma {:induction false} Append(max: int, s: State, middle: State, end: State, before: seq<Action>, after: seq<Action>)
    requires Reaches(max, s, middle, before) && Reaches(max, middle, end, after)
    ensures Reaches(max, s, end, before + after)
    decreases before
  {
    if before == [] {
      assert before + after == after;
    } else {
      assert (before + after)[0] == before[0] && (before + after)[1..] == before[1..] + after;
      Append(max, Next(max, s, before[0]), middle, end, before[1..], after);
    }
  }

  lemma Stay(max: int, s: State)
    ensures Reaches(max, s, s, [])
  {
  }

  /** One more step at the end of a run. */
  lemma Then(max: int, s: State, middle: State, schedule: seq<Action>, a: Action)
    requires Reaches(max, s, middle, schedule) && Enabled(middle, a)
    ensures Reaches(max, s, Next(max, middle, a), schedule + [a])
  {
    assert [a][1..] == [];
    Stay(max, Next(max, middle, a));
    Append(max, s, middle, Next(max, middle, a), schedule, [a]);
  }

  lemma Enter(max: int, s: State, t: nat) returns (schedule: seq<Action>)
    requires Numbered(s) && t < |s.threads| && s.threads[t].Idle? && !s.closed && s.count < max
    ensures NoReset(schedule) && Reaches(max, s, s.(threads := s.threads[t := Admitted]), schedule)
    ensures Numbered(s.(threads := s.threads[t := Admitted]))
  {
    var s1 := Next(max, s, Action(t, CheckOpen));
    Stay(max, s);
    Then(max, s, s, [], Action(t, CheckOpen));
    Then(max, s, s1, [] + [Action(t, CheckOpen)], Action(t, CheckRoom));
    schedule := [] + [Action(t, CheckOpen)] + [Action(t, CheckRoom)];
    assert s1.threads[t := Admitted] == s.threads[t := Admitted];
  }

  ghost predicate Grown(s: State, end: State, k: nat) {
    && Numbered(end) && |end.streams| == |s.streams| + k && end.issued == s.issued + k
    && end.count == s.count + k && end.closed == s.closed
  }

  lemma Finish(max: int, s: State, t: nat) returns (schedule: seq<Action>, end: State)
    requires Numbered(s) && s.issued < IDS && t < |s.threads| && s.threads[t].Admitted?
    ensures NoReset(schedule) && Reaches(max, s, end, schedule) && Grown(s, end, 1)
    ensures end.threads == s.threads[t := Idle]
  {
    var a, b, c := Action(t, TakeId), Action(t, Store), Action(t, CountUp);
    var s1 := Next(max, s, a);
    StepKeepsNumbered(max, s, a);
    FreshId(s1, t);
    var s2 := Next(max, s1, b);
    StepKeepsNumbered(max, s1, b);
    end := Next(max, s2, c);
    StepKeepsNumbered(max, s2, c);
    Stay(max, s);
    Then(max, s, s, [], a);
    Then(max, s, s1, [] + [a], b);
    Then(max, s, s2, [] + [a] + [b], c);
    schedule := [] + [a] + [b] + [c];
    assert end.threads == s.threads[t := Idle];
  }

  /** Thread 0 alone opens k streams. */
  lemma Fill(max: int, s: State, k: nat) returns (schedule: seq<Action>, end: State)
    requires Numbered(s) && s.issued + k <= IDS && !s.closed && s.count + k <= max
    requires |s.threads| > 0 && s.threads[0].Idle?
    ensures NoReset(schedule) && Reaches(max, s, end, schedule) && Grown(s, end, k) && end.threads == s.threads
    decreases k
  {
    hide Run, After, Numbered;
    if k == 0 {
      schedule, end := [], s;
      Stay(max, s);
    } else {
      var entered := s.(threads := s.threads[0 := Admitted]);
      var p := Enter(max, s, 0);
      var q, s1 := Finish(max, entered, 0);
      var r;
      r, end := Fill(max, s1, k - 1);
      Append(max, s, entered, s1, p, q);
      Append(max, s, s1, end, p + q, r);
      schedule := p + q + r;
    }
  }

  /** All threads from t on pass the room check before any of them counts a stream. */
  lemma EnterAll(max: int, s: State, t: nat) returns (schedule: seq<Action>, end: State)
    requires Numbered(s) && t <= |s.threads| && !s.closed && s.count < max
    requires forall u :: t <= u < |s.threads| ==> s.threads[u].Idle?
    ensures NoReset(schedule) && Reaches(max, s, end, schedule) && Numbered(end)
    ensures end == s.(threads := end.threads) && |end.threads| == |s.threads|
    ensures forall u :: 0 <= u < |s.threads| ==> end.threads[u] == if u < t then s.threads[u] else Admitted
    decreases |s.threads| - t
  {
    hide Run, After, Numbered;
    if t == |s.threads| {
      schedule, end := [], s;
      Stay(max, s);
    } else {
      var s1 := s.(threads := s.threads[t := Admitted]);
      var p := Enter(max, s, t);
      var q;
      q, end := EnterAll(max, s1, t + 1);
      Append(max, s, s1, end, p, q);
      schedule := p + q;
    }
  }

  lemma FinishAll(max: int, s: State, t: nat) returns (schedule: seq<Action>, end: State)
    requires Numbered(s) && t <= |s.threads| && s.issued + |s.threads| - t <= IDS
    requires forall u :: t <= u < |s.threads| ==> s.threads[u].Admitted?
    ensures NoReset(schedule) && Reaches(max, s, end, schedule) && Grown(s, end, |s.threads| - t)
    decreases |s.threads| - t
  {
    hide Run, After, Numbered;
    if t == |s.threads| {
      schedule, end := [], s;
      Stay(max, s);
    } else {
      var p, s1 := Finish(max, s, t);
      var q;
      q, end := FinishAll(max, s1, t + 1);
      Append(max, s, s1, end, p, q);
      schedule := p + q;
    }
  }

  /** For every positive limit and every number of goroutines there is a run that opens n - 1 streams too many. */
  lemma BoundReached(max: nat, n: nat) returns (schedule: seq<Action>)
    requires max >= 1 && n >= 1 && max + n - 1 <= IDS
    ensures Run(max, Start(n), schedule) && NoReset(schedule)
    ensures |After(max, Start(n), schedule).streams| == max + n - 1
  {
    hide Run, After, Tally, OneCloser, Numbered;
    var s := Start(n);
    StartIsGood(max, n);
    var p, s1 := Fill(max, s, max - 1);
    var q, s2 := EnterAll(max, s1, 0);
    var r, end := FinishAll(max, s2, 0);
    Append(max, s, s1, s2, p, q);
    Append(max, s, s2, end, p + q, r);
    schedule := p + q + r;
  }

  /** One goroutine is inside CloseStream while another runs Close: the table ends up empty and the counter at -1. */
  lemma CounterBelowZero() returns (schedule: seq<Action>)
    ensures Run(1, Start(2), schedule) && Quiet(After(1, Start(2), schedule))
    ensures After(1, Start(2), schedule).streams == map[] && After(1, Start(2), schedule).count == -1
  {
    hide Run, After, Numbered, Tally, OneCloser, Drift, Room;
    var s := Start(2);
    StartIsGood(1, 2);
    var p, s1 := Fill(1, s, 1);
    var id :| id in s1.streams;
    var a, b, c, d, e := Action(1, Remove(id)), Action(0, Shut), Action(0, Survey), Action(0, Reset), Action(1, CountDown);
    var s2 := Next(1, s1, a);
    assert s2.streams.Keys == s1.streams.Keys - {id};
    var s3 := Next(1, s2, b);
    var s4 := Next(1, s3, c);
    var s5 := Next(1, s4, d);
    Then(1, s, s1, p, a);
    Then(1, s, s2, p + [a], b);
    Then(1, s, s3, p + [a] + [b], c);
    Then(1, s, s4, p + [a] + [b] + [c], d);
    Then(1, s, s5, p + [a] + [b] + [c] + [d], e);
    schedule := p + [a] + [b] + [c] + [d] + [e];
  }
}
