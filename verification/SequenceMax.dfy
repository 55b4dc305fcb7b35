/** The compare-and-swap loops that keep the highest sequence number seen
    (internal/tunnel/session.go UpdateAckSeq, internal/tunnel/stream.go UpdateRecvSeq),
    under any interleaving of their atomic steps.
 */
module SequenceMax {
  import opened Basics
  import opened Tallies

  /** One call: about to load, about to swap what it loaded, or returned. */
  datatype Thread = Loading(seqNo: uint32) | Swapping(seqNo: uint32, loaded: uint32) | Returned(seqNo: uint32)

  datatype State = State(value: uint32, threads: seq<Thread>)

  predicate Enabled(s: State, t: nat) {
    t < |s.threads| && !s.threads[t].Returned?
  }

  /** The next atomic step of thread t. */
  function Step(s: State, t: nat): State
    requires Enabled(s, t)
  {
    match s.threads[t]
    case Loading(n) =>
      s.(threads := s.threads[t := if n <= s.value then Returned(n) else Swapping(n, s.value)])
    case Swapping(n, loaded) =>
      if s.value == loaded then State(n, s.threads[t := Returned(n)])
      else s.(threads := s.threads[t := Loading(n)])
  }

  ghost predicate Run(s: State, schedule: seq<nat>)
    decreases schedule
  {
    schedule != [] ==> Enabled(s, schedule[0]) && Run(Step(s, schedule[0]), schedule[1..])
  }

  function After(s: State, schedule: seq<nat>): State
    requires Run(s, schedule)
    decreases schedule
  {
    if schedule == [] then s else After(Step(s, schedule[0]), schedule[1..])
  }

  /** All calls about to begin. */
  function Start(value: uint32, args: seq<uint32>): State {
    State(value, seq(|args|, i requires 0 <= i < |args| => Loading(args[i])))
  }

  /** The value comes from somewhere, covers every call that has returned, and every pending swap would raise it. */
  ghost predicate Good(initial: uint32, args: seq<uint32>, s: State) {
    && |s.threads| == |args| && (forall t :: 0 <= t < |args| ==> s.threads[t].seqNo == args[t])
    && initial <= s.value && (s.value == initial || s.value in args)
    && (forall t :: 0 <= t < |args| && s.threads[t].Returned? ==> args[t] <= s.value)
    && (forall t :: 0 <= t < |args| && s.threads[t].Swapping? ==> s.threads[t].loaded < args[t] && s.threads[t].loaded <= s.value)
  }

  lemma {:induction false} RunKeepsGood(initial: uint32, args: seq<uint32>, s: State, schedule: seq<nat>)
    requires Good(initial, args, s) && Run(s, schedule)
    ensures Good(initial, args, After(s, schedule)) && s.value <= After(s, schedule).value
    decreases schedule
  {
    if schedule != [] {
      RunKeepsGood(initial, args, Step(s, schedule[0]), schedule[1..]);
    }
  }

  ghost predicate IsMax(m: uint32, initial: uint32, args: seq<uint32>) {
    && initial <= m && (forall i :: 0 <= i < |args| ==> args[i] <= m)
    && (m == initial || m in args)
  }

  /** When all calls have returned, whatever the interleaving, the value is the maximum of the initial one and all arguments. */
  lemma EndsWithMaximum(initial: uint32, args: seq<uint32>, schedule: seq<nat>)
    requires Run(Start(initial, args), schedule)
    requires var s := After(Start(initial, args), schedule); forall t :: 0 <= t < |s.threads| ==> s.threads[t].Returned?
    ensures IsMax(After(Start(initial, args), schedule).value, initial, args)
  {
    RunKeepsGood(initial, args, Start(initial, args), schedule);
  }

  // Termination of the whole system

  /** What a thread still has to do; a swap that is going to fail costs the most. */
  function Work(value: uint32, n: nat, t: Thread): int {
    match t
    case Returned(_) => 0
    case Loading(_) => 2 * n + 2
    case Swapping(_, loaded) => if loaded == value then 2 * n + 1 else 2 * n + 3
  }

  function TotalWork(s: State): int {
    Tally(s.threads, t => Work(s.value, |s.threads|, t))
  }

  /** Every step of every thread leaves less to do: a failed swap is paid for by the swap that made it fail. */
  lemma StepWorks(initial: uint32, args: seq<uint32>, s: State, t: nat)
    requires Good(initial, args, s) && Enabled(s, t)
    ensures 0 <= TotalWork(Step(s, t)) < TotalWork(s)
  {
    var n := |s.threads|;
    var s' := Step(s, t);
    var w, w' := (x: Thread) => Work(s.value, n, x), (x: Thread) => Work(s'.value, n, x);
    TallyBetween(s'.threads, w', 0, 2 * n + 3);
    assert TotalWork(s') == Tally(s'.threads, w') && TotalWork(s) == Tally(s.threads, w);
    if s'.value == s.value {
      assert w == w';
      TallyUpdate(s.threads, w, t, s'.threads[t]);
    } else {
      TallyChange(s.threads, s'.threads, w, w', t, 2);
    }
  }

  /** However the calls interleave, there are at most n * (2n + 2) steps before all of them have returned. */
  lemma {:induction false} StepsBounded(initial: uint32, args: seq<uint32>, s: State, schedule: seq<nat>)
    requires Good(initial, args, s) && Run(s, schedule)
    ensures |schedule| + TotalWork(After(s, schedule)) <= TotalWork(s)
    decreases schedule
  {
    if schedule != [] {
      StepWorks(initial, args, s, schedule[0]);
      RunKeepsGood(initial, args, s, [schedule[0]]);
      var s1 := Step(s, schedule[0]);
      assert After(s1, []) == s1;
      hide TotalWork, Step, Good;
      StepsBounded(initial, args, s1, schedule[1..]);
    }
  }

  lemma WorkAtStart(initial: uint32, args: seq<uint32>)
    ensures TotalWork(Start(initial, args)) <= |args| * (2 * |args| + 2)
  {
    var s := Start(initial, args);
    TallyBetween(s.threads, t => Work(s.value, |s.threads|, t), 0, 2 * |args| + 2);
    assert (2 * |args| + 2) * |args| == |args| * (2 * |args| + 2);
  }

  lemma WorkLeft(s: State)
    ensures TotalWork(s) >= 0
  {
    TallyBetween(s.threads, t => Work(s.value, |s.threads|, t), 0, 2 * |s.threads| + 3);
  }

  lemma RunsEnd(initial: uint32, args: seq<uint32>, schedule: seq<nat>)
    requires Run(Start(initial, args), schedule)
    ensures |schedule| <= |args| * (2 * |args| + 2)
  {
    hide TotalWork;
    var s := Start(initial, args);
    StepsBounded(initial, args, s, schedule);
    WorkAtStart(initial, args);
    WorkLeft(After(s, schedule));
  }
}
