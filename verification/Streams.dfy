/** The receiving side of a stream (internal/tunnel/stream.go): Read and PushData look at the state before they use the
    receive buffer, and Close and Reset change the state before they close it. Any number of goroutines, any interleaving.
 */
module Streams {
  import opened Basics
  import opened Buffers

  datatype Phase = IsOpen | IsClosed | IsReset

  /** Where a goroutine is: it has seen the stream open and is about to use the buffer, it is inside the buffer, or it has
      ended the stream and is about to close the buffer. */
  datatype Caller = Out | Passed(op: Op) | Inside | Ending

  datatype Stream = Stream(phase: Phase, recv: Monitor, callers: seq<Caller>)

  datatype Move = Look(op: Op) | Enter | Wake | BeginClose | BeginReset | CloseBuffer

  datatype Turn = Turn(t: nat, move: Move)

  /** A stream as NewStream makes it. */
  function New(threads: nat): Stream {
    Stream(IsOpen, Start(threads), seq(threads, _ => Out))
  }

  predicate CanMove(s: Stream, turn: Turn) {
    && turn.t < |s.callers| && |s.callers| == |s.recv.threads|
    && var here := s.callers[turn.t];
       match turn.move
       case Look(_) => here.Out?
       case Enter => here.Passed? && s.recv.threads[turn.t].Outside?
       case Wake => here.Inside? && s.recv.threads[turn.t].Woken?
       case BeginClose => here.Out?
       case BeginReset => here.Out?
       case CloseBuffer => here.Ending? && s.recv.threads[turn.t].Outside?
  }

  /** What the turn does to the buffer, if anything. */
  function Use(s: Stream, turn: Turn): Option<Action>
    requires CanMove(s, turn)
  {
    match turn.move
    case Enter => Some(Call(turn.t, s.callers[turn.t].op))
    case Wake => Some(Resume(turn.t))
    case CloseBuffer => Some(Shut(turn.t))
    case _ => None
  }

  function Buffer(cfg: Config, s: Stream, turn: Turn): (recv: Monitor)
    requires CanMove(s, turn)
    ensures |recv.threads| == |s.recv.threads|
  {
    match Use(s, turn)
    case Some(a) => Act(cfg, s.recv, a)
    case None => s.recv
  }

  function Next(cfg: Config, s: Stream, turn: Turn): Stream
    requires CanMove(s, turn)
  {
    var recv := Buffer(cfg, s, turn);
    var (phase, caller) :=
      match turn.move
      case Look(op) => (s.phase, if s.phase.IsOpen? then Passed(op) else Out)
      case BeginClose => if s.phase.IsOpen? then (IsClosed, Ending) else (s.phase, Out)
      case BeginReset => (IsReset, Ending)
      case CloseBuffer => (s.phase, Out)
      case _ => (s.phase, if recv.threads[turn.t].Outside? then Out else Inside);
    Stream(phase, recv, s.callers[turn.t := caller])
  }

  ghost predicate Goes(cfg: Config, s: Stream, turns: seq<Turn>)
    decreases turns
  {
    turns != [] ==> CanMove(s, turns[0]) && Goes(cfg, Next(cfg, s, turns[0]), turns[1..])
  }

  function Reached(cfg: Config, s: Stream, turns: seq<Turn>): Stream
    requires Goes(cfg, s, turns)
    decreases turns
  {
    if turns == [] then s else Reached(cfg, Next(cfg, s, turns[0]), turns[1..])
  }

  /** The buffer keeps its promises, and once the stream has ended its buffer is closed or about to be. */
  ghost predicate Fine(cfg: Config, s: Stream) {
    && Good(cfg, s.recv)
    && (s.phase.IsOpen? || s.recv.closed || exists t :: 0 <= t < |s.callers| && s.callers[t].Ending?)
  }

  lemma TurnKeepsFine(cfg: Config, s: Stream, turn: Turn)
    requires Fine(cfg, s) && CanMove(s, turn)
    ensures Fine(cfg, Next(cfg, s, turn))
  {
    if Use(s, turn).Some? {
      ActKeepsGood(cfg, s.recv, Use(s, turn).value);
    }
    hide Good, Section;
    var s' := Next(cfg, s, turn);
    if !s.phase.IsOpen? && !s.recv.closed && !turn.move.CloseBuffer? {
      var t :| 0 <= t < |s.callers| && s.callers[t].Ending?;
      assert s'.callers[t].Ending?;
    } else if turn.move.BeginClose? || turn.move.BeginReset? {
      assert s.phase.IsOpen? || turn.move.BeginReset? ==> s'.callers[turn.t].Ending?;
    }
  }

  lemma {:induction false} GoesKeepsFine(cfg: Config, s: Stream, turns: seq<Turn>)
    requires Fine(cfg, s) && Goes(cfg, s, turns)
    ensures Fine(cfg, Reached(cfg, s, turns))
    decreases turns
  {
    if turns != [] {
      TurnKeepsFine(cfg, s, turns[0]);
      hide Fine, Next;
      GoesKeepsFine(cfg, Next(cfg, s, turns[0]), turns[1..]);
    }
  }

  /** Whatever is read from a stream is a prefix of what was pushed into it and accepted. */
  lemma ReadsPushed(cfg: Config, threads: nat, turns: seq<Turn>)
    requires Goes(cfg, New(threads), turns)
    ensures Reached(cfg, New(threads), turns).recv.read <= Reached(cfg, New(threads), turns).recv.written
  {
    GoesKeepsFine(cfg, New(threads), turns);
  }

  /** While the stream is open, a call that looks at the state and goes on does to the buffer what the buffer's own call does. */
  lemma CallThrough(cfg: Config, s: Stream, t: nat, op: Op)
    requires s.phase.IsOpen? && t < |s.callers| == |s.recv.threads| && s.callers[t].Out? && s.recv.threads[t].Outside?
    requires Act(cfg, s.recv, Call(t, op)).threads[t].Outside?
    ensures Goes(cfg, s, [Turn(t, Look(op)), Turn(t, Enter)])
    ensures Reached(cfg, s, [Turn(t, Look(op)), Turn(t, Enter)]) == s.(recv := Act(cfg, s.recv, Call(t, op)))
  {
    var a, b := Turn(t, Look(op)), Turn(t, Enter);
    assert [a, b][1..] == [b] && [b][1..] == [];
    var s1 := Next(cfg, s, a);
    var s2 := Next(cfg, s1, b);
    assert s2.callers == s.callers;
    assert Goes(cfg, s2, []) && Goes(cfg, s1, [b]);
    assert Reached(cfg, s1, [b]) == s2;
  }

  /** Thread t reads from the stream, again and again. */
  function Pulls(t: nat, size: nat, n: nat): seq<Turn> {
    if n == 0 then [] else [Turn(t, Look(Read(size))), Turn(t, Enter)] + Pulls(t, size, n - 1)
  }

  lemma {:induction false} PullsRead(cfg: Config, s: Stream, t: nat, size: nat, n: nat)
    requires s.phase.IsOpen? && t < |s.callers| == |s.recv.threads| && s.callers[t].Out? && s.recv.threads[t].Outside?
    requires Spare(n, Chunk(cfg, size), |s.recv.buf|)
    ensures Run(cfg, s.recv, Reads(t, size, n)) && Goes(cfg, s, Pulls(t, size, n))
    ensures Reached(cfg, s, Pulls(t, size, n)) == s.(recv := After(cfg, s.recv, Reads(t, size, n)))
    decreases n
  {
    ReadsTake(cfg, s.recv, t, size, n);
    if n > 0 {
      var first, m1 := ReadNext(cfg, s.recv, t, size, n);
      hide Act, Chunk, Spare, Drawn, Enabled, Reads, Run, After;
      CallThrough(cfg, s, t, Read(size));
      PullsRead(cfg, s.(recv := m1), t, size, n - 1);
      ReadFirst(cfg, s.recv, m1, t, size, n);
      GoOn(cfg, s, [Turn(t, Look(Read(size))), Turn(t, Enter)], Pulls(t, size, n - 1));
    }
  }

  lemma {:induction false} GoOn(cfg: Config, s: Stream, before: seq<Turn>, after: seq<Turn>)
    requires Goes(cfg, s, before) && Goes(cfg, Reached(cfg, s, before), after)
    ensures Goes(cfg, s, before + after) && Reached(cfg, s, before + after) == Reached(cfg, Reached(cfg, s, before), after)
    decreases before
  {
    hide CanMove, Next;
    if before == [] {
      assert before + after == after;
    } else {
      assert (before + after)[0] == before[0] && (before + after)[1..] == before[1..] + after;
      GoOn(cfg, Next(cfg, s, before[0]), before[1..], after);
    }
  }

  /** From an open stream a reader with room gets everything that has been pushed into it and not yet read. */
  lemma AllPulled(cfg: Config, s: Stream, t: nat, size: nat)
    requires s.phase.IsOpen? && t < |s.callers| == |s.recv.threads| && s.callers[t].Out? && s.recv.threads[t].Outside?
    requires size > 0 && cfg.maxBurst != Some(0)
    ensures Chunk(cfg, size) > 0
    ensures var turns := Pulls(t, size, Enough(|s.recv.buf|, Chunk(cfg, size)));
      && Goes(cfg, s, turns) && Reached(cfg, s, turns).phase.IsOpen?
      && Reached(cfg, s, turns).recv.buf == [] && Reached(cfg, s, turns).recv.read == s.recv.read + s.recv.buf
  {
    EnoughIs(|s.recv.buf|, Chunk(cfg, size));
    ReadsDrain(cfg, s.recv, t, size);
    hide Enough, Reads, Run, After, Goes, Reached, Pulls;
    PullsRead(cfg, s, t, size, Enough(|s.recv.buf|, Chunk(cfg, size)));
  }

  predicate Has(turns: seq<Turn>, move: Move) {
    exists i :: 0 <= i < |turns| && turns[i].move == move
  }

  lemma HasFirst(turns: seq<Turn>, move: Move)
    requires turns != []
    ensures Has(turns, move) <==> turns[0].move == move || Has(turns[1..], move)
  {
    if Has(turns[1..], move) {
      var i :| 0 <= i < |turns[1..]| && turns[1..][i].move == move;
      assert turns[i + 1].move == move;
    }
    if i :| 0 <= i < |turns| && turns[i].move == move && i > 0 {
      assert turns[1..][i - 1].move == move;
    }
  }

  /** A stream ends as the turns say: a reset is for good, and a close counts if the stream is open. */
  lemma {:induction false} PhaseExactly(cfg: Config, s: Stream, turns: seq<Turn>)
    requires Goes(cfg, s, turns)
    ensures Reached(cfg, s, turns).phase
         == if Has(turns, BeginReset) then IsReset else if s.phase.IsOpen? && Has(turns, BeginClose) then IsClosed else s.phase
    decreases turns
  {
    if turns != [] {
      HasFirst(turns, BeginReset);
      HasFirst(turns, BeginClose);
      assert turns[0].move.BeginReset? <==> turns[0].move == BeginReset;
      assert turns[0].move.BeginClose? <==> turns[0].move == BeginClose;
      PhaseExactly(cfg, Next(cfg, s, turns[0]), turns[1..]);
      hide Has, Buffer;
    }
  }

  /** Once somebody has closed or reset the stream and everybody who did has come out of the call, the buffer is closed and
      nobody sleeps in it. */
  lemma EndTakesEffect(cfg: Config, threads: nat, turns: seq<Turn>, t: nat)
    requires Goes(cfg, New(threads), turns) && (Has(turns, BeginClose) || Has(turns, BeginReset))
    requires var s := Reached(cfg, New(threads), turns);
      (forall u :: 0 <= u < |s.callers| ==> !s.callers[u].Ending?) && t < |s.recv.threads|
    ensures var s := Reached(cfg, New(threads), turns);
      !s.phase.IsOpen? && s.recv.closed && !s.recv.threads[t].Asleep?
  {
    PhaseExactly(cfg, New(threads), turns);
    GoesKeepsFine(cfg, New(threads), turns);
  }

  /** Once the stream has ended and nobody is still about to close its buffer, no reader sleeps. */
  lemma EndWakesReaders(cfg: Config, threads: nat, turns: seq<Turn>, t: nat)
    requires Goes(cfg, New(threads), turns)
    requires var s := Reached(cfg, New(threads), turns);
      && !s.phase.IsOpen? && (forall u :: 0 <= u < |s.callers| ==> !s.callers[u].Ending?)
      && t < |s.recv.threads|
    ensures !Reached(cfg, New(threads), turns).recv.threads[t].Asleep?
  {
    GoesKeepsFine(cfg, New(threads), turns);
  }

  /** The stream has ended, and no call is past its look at the state. */
  ghost predicate Over(s: Stream) {
    !s.phase.IsOpen? && forall t :: 0 <= t < |s.callers| ==> s.callers[t].Out? || s.callers[t].Ending?
  }

  /** From then on nothing is accepted any more and nothing is read: what is still in the buffer is lost. */
  lemma {:induction false} OverForGood(cfg: Config, s: Stream, turns: seq<Turn>)
    requires Over(s) && Goes(cfg, s, turns)
    ensures var end := Reached(cfg, s, turns);
      && Over(end) && end.recv.written == s.recv.written && end.recv.read == s.recv.read && end.recv.buf == s.recv.buf
    decreases turns
  {
    if turns != [] {
      OverForGood(cfg, Next(cfg, s, turns[0]), turns[1..]);
    }
  }

  /** While the stream is over every call is turned away by its look at the state, whatever is left in the buffer. */
  lemma TurnedAway(cfg: Config, s: Stream, t: nat, op: Op)
    requires Over(s) && CanMove(s, Turn(t, Look(op)))
    ensures Next(cfg, s, Turn(t, Look(op))) == s
  {
    assert s.callers[t := Out] == s.callers;
  }

  /** Not before: a call that has looked at the state in time can still have its bytes accepted after the stream has ended. */
  lemma LatePush(cfg: Config, data: Bytes) returns (turns: seq<Turn>)
    requires |data| <= cfg.maxSize
    ensures Goes(cfg, New(2), turns)
    ensures var s := Reached(cfg, New(2), turns); s.phase.IsClosed? && s.recv.written == data && !s.recv.closed
  {
    var a, b, c := Turn(0, Look(Write(data))), Turn(1, BeginClose), Turn(0, Enter);
    turns := [a, b, c];
    var s1 := Next(cfg, New(2), a);
    var s2 := Next(cfg, s1, b);
    var s3 := Next(cfg, s2, c);
    assert turns[1..] == [b, c] && [b, c][1..] == [c] && [c][1..] == [];
    assert Goes(cfg, s3, []) && Goes(cfg, s2, [c]) && Goes(cfg, s1, [b, c]);
    assert Reached(cfg, s1, [b, c]) == Reached(cfg, s2, [c]) == s3;
    assert [] + data == data;
  }
}
