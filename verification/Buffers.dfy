/** The bounded blocking buffers as monitors (internal/buffer/buffer.go).

    Any number of threads run critical sections one at a time; cond.Wait gives up the
    mutex and sleeps until a broadcast. SendBuffer and RecvBuffer are the same monitor:
    only a SendBuffer makes its writers wait, and only a SendBuffer limits a burst.
 */
module Buffers {
  import opened Basics

  datatype Config = Config(maxSize: nat, maxBurst: Option<nat>, writersWait: bool)

  datatype Op = Write(data: Bytes) | Read(size: nat)

  /** A thread is outside the buffer, asleep in cond.Wait, or woken and about to test its condition again. */
  datatype Thread = Outside | Asleep(op: Op) | Woken(op: Op)

  /** The buffer, its threads, and everything ever written to it and read from it. */
  datatype Monitor = Monitor(buf: Bytes, closed: bool, threads: seq<Thread>, written: Bytes, read: Bytes)

  function Start(threads: nat): Monitor {
    Monitor([], false, seq(threads, _ => Outside), [], [])
  }

  function Wake(t: Thread): Thread {
    if t.Asleep? then Woken(t.op) else t
  }

  function WakeAll(threads: seq<Thread>): (woken: seq<Thread>)
    ensures |woken| == |threads|
    ensures forall t :: 0 <= t < |threads| ==> woken[t] == Wake(threads[t])
  {
    seq(|threads|, t requires 0 <= t < |threads| => Wake(threads[t]))
  }

  function Burst(cfg: Config, buf: Bytes, size: nat): (n: nat)
    ensures n <= |buf| && n <= size
  {
    var n := if cfg.maxBurst.Some? then Min(|buf|, cfg.maxBurst.value) else |buf|;
    Min(n, size)
  }

  predicate Fits(cfg: Config, m: Monitor, data: Bytes) {
    |m.buf| + |data| <= cfg.maxSize
  }

  /** One critical section of thread t: from taking the mutex, or from waking up, to returning or falling asleep. */
  function Section(cfg: Config, m: Monitor, t: nat, op: Op): Monitor
    requires t < |m.threads|
  {
    match op
    case Write(data) =>
      if m.closed || (!Fits(cfg, m, data) && !cfg.writersWait) then m.(threads := m.threads[t := Outside])
      else if !Fits(cfg, m, data) then m.(threads := m.threads[t := Asleep(op)])
      else m.(buf := m.buf + data, threads := WakeAll(m.threads[t := Outside]), written := m.written + data)
    case Read(size) =>
      if m.buf == [] && !m.closed then m.(threads := m.threads[t := Asleep(op)])
      else if m.buf == [] then m.(threads := m.threads[t := Outside])
      else
        var n := Burst(cfg, m.buf, size);
        m.(buf := m.buf[n..], threads := WakeAll(m.threads[t := Outside]), read := m.read + m.buf[..n])
  }

  datatype Action = Call(t: nat, op: Op) | Resume(t: nat) | Shut(t: nat)

  predicate Enabled(m: Monitor, a: Action) {
    && a.t < |m.threads|
    && match a
       case Call(t, _) => m.threads[t].Outside?
       case Resume(t) => m.threads[t].Woken?
       case Shut(t) => m.threads[t].Outside?
  }

  function Act(cfg: Config, m: Monitor, a: Action): (m': Monitor)
    requires Enabled(m, a)
    ensures |m'.threads| == |m.threads|
  {
    match a
    case Call(t, op) => Section(cfg, m, t, op)
    case Resume(t) => Section(cfg, m, t, m.threads[t].op)
    case Shut(t) => m.(closed := true, threads := WakeAll(m.threads))
  }

  ghost predicate Run(cfg: Config, m: Monitor, actions: seq<Action>)
    decreases actions
  {
    actions != [] ==> Enabled(m, actions[0]) && Run(cfg, Act(cfg, m, actions[0]), actions[1..])
  }

  function After(cfg: Config, m: Monitor, actions: seq<Action>): Monitor
    requires Run(cfg, m, actions)
    decreases actions
  {
    if actions == [] then m else After(cfg, Act(cfg, m, actions[0]), actions[1..])
  }

  // No lost wakeups

  /** A thread may only sleep while what it waits for has not happened. */
  predicate MustWait(cfg: Config, m: Monitor, op: Op) {
    && !m.closed
    && match op
       case Write(data) => cfg.writersWait && !Fits(cfg, m, data)
       case Read(_) => m.buf == []
  }

  ghost predicate Good(cfg: Config, m: Monitor) {
    && |m.buf| <= cfg.maxSize
    && m.written == m.read + m.buf
    && forall t :: 0 <= t < |m.threads| && m.threads[t].Asleep? ==> MustWait(cfg, m, m.threads[t].op)
  }

  lemma SectionWaits(cfg: Config, m: Monitor, t: nat, op: Op, u: nat)
    requires Good(cfg, m) && t < |m.threads| && u < |m.threads| && Section(cfg, m, t, op).threads[u].Asleep?
    ensures MustWait(cfg, Section(cfg, m, t, op), Section(cfg, m, t, op).threads[u].op)
  {}

  lemma SectionHistory(cfg: Config, m: Monitor, t: nat, op: Op)
    requires Good(cfg, m) && t < |m.threads|
    ensures var m' := Section(cfg, m, t, op); |m'.buf| <= cfg.maxSize && m'.written == m'.read + m'.buf
  {
    if op.Read? && m.buf != [] {
      var n := Burst(cfg, m.buf, op.size);
      assert m.buf == m.buf[..n] + m.buf[n..];
    }
  }

  lemma ActKeepsGood(cfg: Config, m: Monitor, a: Action)
    requires Good(cfg, m) && Enabled(m, a)
    ensures Good(cfg, Act(cfg, m, a))
  {
    if !a.Shut? {
      var op := if a.Call? then a.op else m.threads[a.t].op;
      SectionHistory(cfg, m, a.t, op);
      forall u | 0 <= u < |m.threads| && Section(cfg, m, a.t, op).threads[u].Asleep?
        ensures MustWait(cfg, Section(cfg, m, a.t, op), Section(cfg, m, a.t, op).threads[u].op)
      {
        SectionWaits(cfg, m, a.t, op, u);
      }
      hide Section, MustWait;
    }
  }

  /** In every state any interleaving of readers, writers and closers can reach: no thread sleeps through what it
      waits for, the buffer keeps within its size, and what was read and what is buffered is what was written, in order. */
  lemma {:induction false} RunKeepsGood(cfg: Config, m: Monitor, actions: seq<Action>)
    requires Good(cfg, m) && Run(cfg, m, actions)
    ensures Good(cfg, After(cfg, m, actions))
    decreases actions
  {
    if actions != [] {
      ActKeepsGood(cfg, m, actions[0]);
      RunKeepsGood(cfg, Act(cfg, m, actions[0]), actions[1..]);
    }
  }

  /** What has been read is a prefix of what has been accepted, of either buffer. */
  lemma ReadsPrefix(cfg: Config, threads: nat, actions: seq<Action>)
    requires Run(cfg, Start(threads), actions)
    ensures After(cfg, Start(threads), actions).read <= After(cfg, Start(threads), actions).written
  {
    RunKeepsGood(cfg, Start(threads), actions);
  }

  /** Readers and writers sleep at the same time only when some writer asks for more than the buffer could ever hold. */
  lemma BlockedTogether(cfg: Config, threads: nat, actions: seq<Action>, r: nat, w: nat)
    requires Run(cfg, Start(threads), actions)
    requires var m := After(cfg, Start(threads), actions);
      && r < |m.threads| && m.threads[r].Asleep? && m.threads[r].op.Read?
      && w < |m.threads| && m.threads[w].Asleep? && m.threads[w].op.Write?
    ensures |After(cfg, Start(threads), actions).threads[w].op.data| > cfg.maxSize
  {
    RunKeepsGood(cfg, Start(threads), actions);
  }

  /** Once the buffer is closed nobody sleeps. */
  lemma ClosedWakesAll(cfg: Config, threads: nat, actions: seq<Action>, t: nat)
    requires Run(cfg, Start(threads), actions) && After(cfg, Start(threads), actions).closed
    requires t < |After(cfg, Start(threads), actions).threads|
    ensures !After(cfg, Start(threads), actions).threads[t].Asleep?
  {
    RunKeepsGood(cfg, Start(threads), actions);
  }

  // One writer

  /** What thread w has asked to write, in program order. */
  function Offered(actions: seq<Action>, w: nat): Bytes {
    if actions == [] then []
    else (if actions[0].Call? && actions[0].t == w && actions[0].op.Write? then actions[0].op.data else []) + Offered(actions[1..], w)
  }

  ghost predicate OnlyWriter(actions: seq<Action>, w: nat) {
    forall i :: 0 <= i < |actions| && actions[i].Call? && actions[i].op.Write? ==> actions[i].t == w
  }

  /** The write that thread w has begun and not finished. */
  function Unfinished(m: Monitor, w: nat): Bytes
    requires w < |m.threads|
  {
    if !m.threads[w].Outside? && m.threads[w].op.Write? then m.threads[w].op.data else []
  }

  ghost predicate OthersRead(m: Monitor, w: nat) {
    forall t :: 0 <= t < |m.threads| && t != w && !m.threads[t].Outside? ==> m.threads[t].op.Read?
  }

  /** With a single writer and writers that wait, the written bytes are a prefix of those offered, and all of them
      apart from the unfinished write as long as the buffer stays open. */
  lemma {:induction false} WrittenInOrder(cfg: Config, m: Monitor, actions: seq<Action>, w: nat)
    requires cfg.writersWait && w < |m.threads| && OthersRead(m, w)
    requires Run(cfg, m, actions) && OnlyWriter(actions, w)
    ensures var m' := After(cfg, m, actions);
      && w < |m'.threads|
      && m'.written <= m.written + Unfinished(m, w) + Offered(actions, w)
      && (!m'.closed ==> m'.written + Unfinished(m', w) == m.written + Unfinished(m, w) + Offered(actions, w))
      && (m.closed ==> m'.closed && m'.written == m.written)
    decreases actions
  {
    if actions != [] {
      var m1 := Act(cfg, m, actions[0]);
      WriteStep(cfg, m, actions[0], w);
      assert OnlyWriter(actions[1..], w) by {
        assert forall i :: 0 <= i < |actions| - 1 ==> actions[1..][i] == actions[i + 1];
      }
      WrittenInOrder(cfg, m1, actions[1..], w);
      hide Act, OthersRead, Unfinished;
      var m2 := After(cfg, m1, actions[1..]);
      OfferedFirst(actions, w);
      Chain(m.written + Unfinished(m, w), Offered([actions[0]], w), Offered(actions[1..], w),
            m1.written, Unfinished(m1, w), m1.closed, m2.written, Unfinished(m2, w), m2.closed);
    }
  }

  /** Once a single writer has returned from all its writes and the open buffer is drained, everything it wrote has been read. */
  lemma AllRead(cfg: Config, threads: nat, actions: seq<Action>, w: nat)
    requires cfg.writersWait && w < threads && Run(cfg, Start(threads), actions) && OnlyWriter(actions, w)
    requires var m := After(cfg, Start(threads), actions);
      w < |m.threads| && m.threads[w].Outside? && !m.closed && m.buf == []
    ensures After(cfg, Start(threads), actions).read == Offered(actions, w)
  {
    RunKeepsGood(cfg, Start(threads), actions);
    WrittenInOrder(cfg, Start(threads), actions, w);
    hide Run, After, Offered, OnlyWriter;
    var offered := Offered(actions, w);
    assert [] + [] + offered == offered;
  }

  lemma OfferedFirst(actions: seq<Action>, w: nat)
    requires actions != []
    ensures Offered(actions, w) == Offered([actions[0]], w) + Offered(actions[1..], w)
  {
    assert Offered([actions[0]][1..], w) == [];
  }

  lemma Chain(start: Bytes, first: Bytes, rest: Bytes, w1: Bytes, u1: Bytes, c1: bool, w2: Bytes, u2: Bytes, c2: bool)
    requires w1 <= start + first && (!c1 ==> w1 + u1 == start + first)
    requires w2 <= w1 + u1 + rest && (!c2 ==> w2 + u2 == w1 + u1 + rest) && (c1 ==> c2 && w2 == w1)
    ensures w2 <= start + (first + rest) && (!c2 ==> w2 + u2 == start + (first + rest))
  {
    assert start + (first + rest) == start + first + rest;
  }

  lemma WriteStep(cfg: Config, m: Monitor, a: Action, w: nat)
    requires cfg.writersWait && w < |m.threads| && OthersRead(m, w) && Enabled(m, a)
    requires a.Call? && a.op.Write? ==> a.t == w
    ensures var m1 := Act(cfg, m, a);
      var first := Offered([a], w);
      && OthersRead(m1, w)
      && m1.written <= m.written + Unfinished(m, w) + first
      && (!m1.closed ==> m1.written + Unfinished(m1, w) == m.written + Unfinished(m, w) + first)
      && (m.closed ==> m1.closed && m1.written == m.written)
  {
    assert [a][1..] == [];
    assert Offered([], w) == [];
  }

  // Progress

  /** The most bytes one Read takes. */
  function Chunk(cfg: Config, size: nat): nat {
    if cfg.maxBurst.Some? then Min(cfg.maxBurst.value, size) else size
  }

  /** Thread t reads, again and again. */
  function Reads(t: nat, size: nat, n: nat): (actions: seq<Action>)
    ensures |actions| == n && forall i :: 0 <= i < n ==> actions[i] == Call(t, Read(size))
  {
    seq(n, _ => Call(t, Read(size)))
  }

  /** The buffer after n reads that have taken some of it. */
  function Drawn(m: Monitor, taken: nat, n: nat): Monitor
    requires taken <= |m.buf|
  {
    m.(buf := m.buf[taken..], threads := if n == 0 then m.threads else WakeAll(m.threads), read := m.read + m.buf[..taken])
  }

  lemma ReadOnce(cfg: Config, m: Monitor, t: nat, size: nat)
    requires t < |m.threads| && m.threads[t].Outside? && m.buf != []
    ensures Enabled(m, Call(t, Read(size)))
    ensures Act(cfg, m, Call(t, Read(size))) == Drawn(m, Min(Chunk(cfg, size), |m.buf|), 1)
  {
    assert m.threads[t := Outside] == m.threads;
  }

  lemma DrawnTwice(m: Monitor, a: nat, b: nat, n: nat)
    requires a + b <= |m.buf|
    ensures Drawn(Drawn(m, a, 1), b, n) == Drawn(m, a + b, n + 1)
  {
    assert WakeAll(WakeAll(m.threads)) == WakeAll(m.threads);
    assert m.buf[a..][b..] == m.buf[a + b..];
    assert m.read + m.buf[..a] + m.buf[a..][..b] == m.read + m.buf[..a + b];
  }

  /** How much of the buffer n chunks are. */
  function Part(n: nat, chunk: nat, length: nat): (part: nat)
    ensures part <= length
  {
    assert n * chunk >= 0;
    Min(n * chunk, length)
  }

  /** The last of n chunks is not empty. */
  predicate Spare(n: nat, chunk: nat, length: nat) {
    n > 0 ==> (n - 1) * chunk < length
  }

  lemma ChunkMore(n: nat, chunk: nat, length: nat)
    requires n > 0 && Spare(n, chunk, length)
    ensures length > 0
    ensures var first := Min(chunk, length);
      first + Part(n - 1, chunk, length - first) == Part(n, chunk, length) && Spare(n - 1, chunk, length - first)
  {
    assert (n - 1) * chunk >= 0 && n * chunk == (n - 1) * chunk + chunk;
    if n > 1 {
      assert (n - 1) * chunk == (n - 2) * chunk + chunk && (n - 2) * chunk >= 0;
    }
  }

  lemma ReadFirst(cfg: Config, m: Monitor, m1: Monitor, t: nat, size: nat, n: nat)
    requires Enabled(m, Call(t, Read(size))) && m1 == Act(cfg, m, Call(t, Read(size)))
    requires n > 0 && Run(cfg, m1, Reads(t, size, n - 1))
    ensures Run(cfg, m, Reads(t, size, n)) && After(cfg, m, Reads(t, size, n)) == After(cfg, m1, Reads(t, size, n - 1))
  {
    assert Reads(t, size, n)[1..] == Reads(t, size, n - 1);
    hide Act, Enabled;
  }

  lemma ReadNext(cfg: Config, m: Monitor, t: nat, size: nat, n: nat) returns (first: nat, m1: Monitor)
    requires t < |m.threads| && m.threads[t].Outside? && n > 0 && Spare(n, Chunk(cfg, size), |m.buf|)
    ensures Enabled(m, Call(t, Read(size))) && m1 == Act(cfg, m, Call(t, Read(size)))
    ensures first <= |m.buf| && m1 == Drawn(m, first, 1) && t < |m1.threads| && m1.threads[t].Outside? && |m1.buf| == |m.buf| - first
    ensures Spare(n - 1, Chunk(cfg, size), |m1.buf|)
    ensures first + Part(n - 1, Chunk(cfg, size), |m1.buf|) == Part(n, Chunk(cfg, size), |m.buf|)
  {
    ChunkMore(n, Chunk(cfg, size), |m.buf|);
    ReadOnce(cfg, m, t, size);
    first := Min(Chunk(cfg, size), |m.buf|);
    m1 := Drawn(m, first, 1);
    hide Act, Chunk, Enabled, Part, Spare;
  }

  /** n reads take n chunks, one after another, off the buffer. */
  lemma {:induction false} ReadsTake(cfg: Config, m: Monitor, t: nat, size: nat, n: nat)
    requires t < |m.threads| && m.threads[t].Outside? && Spare(n, Chunk(cfg, size), |m.buf|)
    ensures Run(cfg, m, Reads(t, size, n))
    ensures After(cfg, m, Reads(t, size, n)) == Drawn(m, Part(n, Chunk(cfg, size), |m.buf|), n)
    decreases n
  {
    hide *;
    if n > 0 {
      var first, m1 := ReadNext(cfg, m, t, size, n);
      ReadsTake(cfg, m1, t, size, n - 1);
      ReadFirst(cfg, m, m1, t, size, n);
      DrawnTwice(m, first, Part(n - 1, Chunk(cfg, size), |m1.buf|), n - 1);
    } else {
      NoReads(cfg, m, t, size, Chunk(cfg, size));
    }
  }

  lemma NoReads(cfg: Config, m: Monitor, t: nat, size: nat, chunk: nat)
    ensures Run(cfg, m, Reads(t, size, 0)) && After(cfg, m, Reads(t, size, 0)) == Drawn(m, Part(0, chunk, |m.buf|), 0)
  {
    assert m.read + [] == m.read;
  }

  /** How many reads empty a buffer. */
  function Enough(length: nat, chunk: nat): nat
    requires chunk > 0
  {
    (length + chunk - 1) / chunk
  }

  lemma EnoughIs(length: nat, chunk: nat)
    requires chunk > 0
    ensures var n := Enough(length, chunk); n * chunk >= length && (n > 0 ==> (n - 1) * chunk < length)
  {
    var n := Enough(length, chunk);
    assert length + chunk - 1 == n * chunk + (length + chunk - 1) % chunk;
    assert (n - 1) * chunk == n * chunk - chunk;
  }

  /** From every state, by a reader with room and a positive burst, the buffer is emptied by as many reads as it has chunks,
      and not by fewer. All that was buffered is read; whoever slept is awake. */
  lemma ReadsDrain(cfg: Config, m: Monitor, t: nat, size: nat)
    requires t < |m.threads| && m.threads[t].Outside? && size > 0 && cfg.maxBurst != Some(0)
    ensures var n := Enough(|m.buf|, Chunk(cfg, size));
      && Run(cfg, m, Reads(t, size, n))
      && After(cfg, m, Reads(t, size, n))
         == m.(buf := [], threads := if n == 0 then m.threads else WakeAll(m.threads), read := m.read + m.buf)
      && forall k :: 0 <= k < n ==> Run(cfg, m, Reads(t, size, k)) && After(cfg, m, Reads(t, size, k)).buf != []
  {
    var chunk := Chunk(cfg, size);
    var n := Enough(|m.buf|, chunk);
    EnoughIs(|m.buf|, chunk);
    assert m.buf[..|m.buf|] == m.buf;
    assert Part(n, chunk, |m.buf|) == |m.buf|;
    hide Chunk, Enough, WakeAll, Run, After, Reads;
    ReadsTake(cfg, m, t, size, n);
    assert After(cfg, m, Reads(t, size, n)).buf == [];
    hide Drawn;
    forall k | 0 <= k < n ensures Run(cfg, m, Reads(t, size, k)) && After(cfg, m, Reads(t, size, k)).buf != [] {
      Fewer(k, n, chunk, |m.buf|);
      ReadsLeave(cfg, m, t, size, k);
    }
  }

  lemma ReadsLeave(cfg: Config, m: Monitor, t: nat, size: nat, k: nat)
    requires t < |m.threads| && m.threads[t].Outside? && Spare(k, Chunk(cfg, size), |m.buf|)
    requires Part(k, Chunk(cfg, size), |m.buf|) < |m.buf|
    ensures Run(cfg, m, Reads(t, size, k)) && After(cfg, m, Reads(t, size, k)).buf != []
  {
    hide Run, After, Reads, Chunk, WakeAll, Part, Spare;
    ReadsTake(cfg, m, t, size, k);
  }

  lemma Fewer(k: nat, n: nat, chunk: nat, length: nat)
    requires k < n && Spare(n, chunk, length)
    ensures Spare(k, chunk, length) && Part(k, chunk, length) < length
  {
    assert (n - 1 - k) * chunk >= 0 && (n - k) * chunk >= 0;
    assert (n - 1) * chunk == k * chunk + (n - 1 - k) * chunk;
    assert k > 0 ==> (n - 1) * chunk == (k - 1) * chunk + (n - k) * chunk;
  }

  lemma {:induction false} RunOn(cfg: Config, m: Monitor, before: seq<Action>, after: seq<Action>)
    requires Run(cfg, m, before) && Run(cfg, After(cfg, m, before), after)
    ensures Run(cfg, m, before + after) && After(cfg, m, before + after) == After(cfg, After(cfg, m, before), after)
    decreases before
  {
    if before == [] {
      assert before + after == after;
    } else {
      assert (before + after)[0] == before[0] && (before + after)[1..] == before[1..] + after;
      RunOn(cfg, Act(cfg, m, before[0]), before[1..], after);
    }
  }

  lemma DrainAfter(cfg: Config, start: Monitor, actions: seq<Action>, t: nat, size: nat)
    requires Run(cfg, start, actions) && size > 0 && cfg.maxBurst != Some(0)
    requires var m := After(cfg, start, actions); t < |m.threads| && m.threads[t].Outside?
    ensures var m := After(cfg, start, actions);
      var all := actions + Reads(t, size, Enough(|m.buf|, Chunk(cfg, size)));
      && Run(cfg, start, all) && After(cfg, start, all).buf == []
      && After(cfg, start, all).read == m.read + m.buf && After(cfg, start, all).written == m.written
  {
    var m := After(cfg, start, actions);
    assert Chunk(cfg, size) > 0;
    hide Run, After, Reads, Enough, Chunk, WakeAll;
    ReadsDrain(cfg, m, t, size);
    RunOn(cfg, start, actions, Reads(t, size, Enough(|m.buf|, Chunk(cfg, size))));
  }

  /** Once a single writer has returned from all its writes to an open buffer, a reader that goes on has read everything it
      wrote after a number of reads that is known beforehand. */
  lemma AllArrives(cfg: Config, threads: nat, actions: seq<Action>, w: nat, t: nat, size: nat)
    requires cfg.writersWait && w < threads && Run(cfg, Start(threads), actions) && OnlyWriter(actions, w)
    requires size > 0 && cfg.maxBurst != Some(0)
    requires var m := After(cfg, Start(threads), actions);
      w < |m.threads| && m.threads[w].Outside? && !m.closed && t < |m.threads| && m.threads[t].Outside?
    ensures var all := actions + Reads(t, size, Enough(|After(cfg, Start(threads), actions).buf|, Chunk(cfg, size)));
      && Run(cfg, Start(threads), all) && After(cfg, Start(threads), all).buf == []
      && After(cfg, Start(threads), all).read == Offered(actions, w)
  {
    RunKeepsGood(cfg, Start(threads), actions);
    WrittenInOrder(cfg, Start(threads), actions, w);
    var m := After(cfg, Start(threads), actions);
    assert Chunk(cfg, size) > 0;
    hide Run, After, Offered, OnlyWriter, Reads, Enough, Chunk, Good, OthersRead, WakeAll;
    DrainAfter(cfg, Start(threads), actions, t, size);
    var offered := Offered(actions, w);
    assert [] + [] + offered == offered && m.written + [] == m.written;
  }

  /** A writer asleep with data that the buffer can hold gets them in: the reads that empty the buffer wake it. */
  lemma WriterServed(cfg: Config, m: Monitor, w: nat, data: Bytes, t: nat, size: nat)
    requires Good(cfg, m) && w < |m.threads| && m.threads[w] == Asleep(Write(data)) && |data| <= cfg.maxSize
    requires t < |m.threads| && m.threads[t].Outside? && size > 0 && cfg.maxBurst != Some(0)
    ensures var actions := Reads(t, size, Enough(|m.buf|, Chunk(cfg, size))) + [Resume(w)];
      && Run(cfg, m, actions) && |After(cfg, m, actions).threads| == |m.threads| && After(cfg, m, actions).threads[w].Outside?
      && After(cfg, m, actions).buf == data && After(cfg, m, actions).written == m.written + data
  {
    var n := Enough(|m.buf|, Chunk(cfg, size));
    EnoughIs(|m.buf|, Chunk(cfg, size));
    ReadsDrain(cfg, m, t, size);
    var m1 := After(cfg, m, Reads(t, size, n));
    hide Enough, Chunk, Reads;
    assert |m1.threads| == |m.threads|;
    assert |m.buf| > 0 && n > 0 && m1.threads[w] == Woken(Write(data));
    assert [Resume(w)][1..] == [];
    assert Run(cfg, Act(cfg, m1, Resume(w)), []);
    RunOn(cfg, m, Reads(t, size, n), [Resume(w)]);
    assert After(cfg, m1, [Resume(w)]) == Act(cfg, m1, Resume(w));
    assert [] + data == data;
  }

  // The monitor as an object

  /** How a critical section ends: in cond.Wait, or with success or an error. */
  datatype Outcome = Waits | Done | BufferClosed | BufferFull

  class Buffer {
    const cfg: Config
    var buf: Bytes
    var closed: bool
    var threads: seq<Thread>
    ghost var written: Bytes
    ghost var read: Bytes

    ghost function State(): Monitor
      reads this
    {
      Monitor(buf, closed, threads, written, read)
    }

    constructor (cfg: Config, threads: nat)
      ensures this.cfg == cfg && State() == Start(threads)
    {
      this.cfg := cfg;
      this.buf, this.closed, this.threads := [], false, seq(threads, _ => Outside);
      this.written, this.read := [], [];
    }

    method Broadcast()
      modifies `threads
      ensures threads == WakeAll(old(threads))
    {
      for t := 0 to |threads|
        invariant |threads| == |old(threads)|
        invariant forall u :: 0 <= u < t ==> threads[u] == Wake(old(threads)[u])
        invariant forall u :: t <= u < |threads| ==> threads[u] == old(threads)[u]
      {
        threads := threads[t := Wake(threads[t])];
      }
    }

    /** Write, from the call or from waking up, until it returns or waits. */
    method WriteSection(t: nat, data: Bytes) returns (r: Outcome)
      requires t < |threads|
      modifies this
      ensures State() == Section(cfg, old(State()), t, Write(data))
      ensures r.Waits? <==> threads[t].Asleep?
      ensures r == if old(closed) then BufferClosed else if old(|buf|) + |data| <= cfg.maxSize then Done
                   else if cfg.writersWait then Waits else BufferFull
      ensures r.Done? ==> buf == old(buf) + data && written == old(written) + data
      ensures !r.Done? ==> buf == old(buf) && written == old(written)
    {
      if !closed && |buf| + |data| > cfg.maxSize && cfg.writersWait {
        threads := threads[t := Asleep(Write(data))];
        return Waits;
      }
      threads := threads[t := Outside];
      if closed {
        return BufferClosed;
      }
      if |buf| + |data| > cfg.maxSize {
        return BufferFull;
      }
      buf := buf + data;
      written := written + data;
      Broadcast();
      return Done;
    }

    /** Read, from the call or from waking up, until it returns or waits. */
    method ReadSection(t: nat, size: nat) returns (r: Outcome, p: Bytes)
      requires t < |threads|
      modifies this
      ensures State() == Section(cfg, old(State()), t, Read(size)) && read == old(read) + p
      ensures r.Waits? <==> threads[t].Asleep?
      ensures r.BufferClosed? <==> old(closed) && old(buf) == []
      ensures r != BufferFull && (r.Done? <==> old(buf) != [])
      ensures old(buf) == p + buf && |p| <= size && (cfg.maxBurst.Some? ==> |p| <= cfg.maxBurst.value)
      ensures buf == [] || |p| == size || cfg.maxBurst == Some(|p|)
    {
      p := [];
      if |buf| == 0 && !closed {
        threads := threads[t := Asleep(Read(size))];
        return Waits, p;
      }
      threads := threads[t := Outside];
      if |buf| == 0 {
        return BufferClosed, p;
      }
      var n := |buf|;
      if cfg.maxBurst.Some? && n > cfg.maxBurst.value {
        n := cfg.maxBurst.value;
      }
      if n > size {
        n := size;
      }
      p := buf[..n];
      buf := buf[n..];
      read := read + p;
      Broadcast();
      return Done, p;
    }

    method Close(t: nat)
      requires t < |threads|
      modifies this
      ensures threads == WakeAll(old(threads)) && State() == old(State()).(closed := true, threads := WakeAll(old(threads)))
      ensures Enabled(old(State()), Shut(t)) ==> State() == Act(cfg, old(State()), Shut(t))
    {
      closed := true;
      Broadcast();
    }
  }
}
