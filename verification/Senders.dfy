/** Goroutines that send at the same time (internal/tunnel/tunnel.go sendPacket, internal/fec/encoder.go Encode,
    internal/fec/adaptive.go): each draws a group id, cuts its packet with the parity it finds, reports its shards as sent and
    hands them to the transport one by one, while the adjustment loop runs. Any interleaving of these steps.
 */
module Senders {
  import opened Basics
  import opened ErasureCode
  import opened Shards
  import CollectorSafety
  import opened Delivery
  import opened Encoding
  import opened Envelope
  import opened Tunnel
  import opened Session
  import Adaptive

  /** A call that has drawn its id: its packet is encrypted, and then cut and posted frame by frame. */
  datatype Cast = Drawn(op: Op) | Posted(sending: Sending, frames: nat)

  /** Where a goroutine is in its call. */
  datatype Thread = Idle | Cutting(call: nat) | Recording(call: nat) | Posting(call: nat)

  /** Calls are numbered in the order of the id counter. The origins say of every message on the wire which frame of which
      call it is; they are not part of the program. */
  datatype State = State(mode: Mode, casts: seq<Cast>, threads: seq<Thread>, wire: seq<Bytes>, origins: seq<(nat, nat)>)

  datatype Move = Draw(op: Op) | Slice | Record | Post | GiveUp | Adjust | Report(count: nat)

  datatype Action = Action(thread: nat, move: Move)

  function Id(start: uint32, call: nat): uint32 {
    GroupAfter(start, call + 1)
  }

  /** What the program keeps true of its own state. */
  ghost predicate Formed(s: Secret, st: State) {
    && s.timeWindow > 0 && |s.userID| == 4 && st.mode.Valid()
    && (forall i :: 0 <= i < |st.casts| ==>
          match st.casts[i]
          case Drawn(op) => op.Send?
          case Posted(sending, _) => sending.k >= 1)
  }

  ghost predicate Enabled(lib: Library, s: Secret, st: State, a: Action)
    requires Formed(s, st)
  {
    && a.thread < |st.threads|
    && var here := st.threads[a.thread];
       match a.move
       case Draw(op) => here.Idle? && op.Send?
       case Slice => here.Cutting? && here.call < |st.casts| && st.casts[here.call].Drawn?
       case Record => here.Recording? && here.call < |st.casts| && st.casts[here.call].Posted?
       case Post =>
         && here.Posting? && here.call < |st.casts| && st.casts[here.call].Posted?
         && st.casts[here.call].frames < |st.casts[here.call].sending.Coded(s).Shards(lib)|
       case GiveUp => here.Posting?
       case Adjust => here.Idle?
       case Report(_) => here.Idle?
  }

  ghost function Next(lib: Library, s: Secret, start: uint32, st: State, a: Action): State
    requires Formed(s, st) && Enabled(lib, s, st, a)
  {
    var here := st.threads[a.thread];
    match a.move
    case Draw(op) => st.(casts := st.casts + [Drawn(op)], threads := st.threads[a.thread := Cutting(|st.casts|)])
    case Slice =>
      var sending := Cut(st.mode, st.casts[here.call].op);
      if Encodes(lib, sending.Coded(s))
      then st.(casts := st.casts[here.call := Posted(sending, 0)], threads := st.threads[a.thread := Recording(here.call)])
      else st.(threads := st.threads[a.thread := Idle])
    case Record =>
      var sending := st.casts[here.call].sending;
      var mode :=
        if st.mode.Fixed? then st.mode
        else st.mode.(loss := Adaptive.Observe(st.mode.loss, Adaptive.Sent(sending.k + sending.p)));
      st.(mode := mode, threads := st.threads[a.thread := Posting(here.call)])
    case Post =>
      var sending, j := st.casts[here.call].sending, st.casts[here.call].frames;
      st.(casts := st.casts[here.call := Posted(sending, j + 1)],
          threads := st.threads[a.thread := if j + 1 == |sending.Coded(s).Shards(lib)| then Idle else here],
          wire := st.wire + [Frame(lib, Id(start, here.call), sending.Coded(s), j)],
          origins := st.origins + [(here.call, j)])
    case GiveUp => st.(threads := st.threads[a.thread := Idle])
    case Adjust => st.(mode := Turn(lib, s, st.mode, Tick))
    case Report(count) => st.(mode := Turn(lib, s, st.mode, Lose(count)))
  }

  function Start(mode: Mode, n: nat): State {
    State(mode, [], seq(n, _ => Idle), [], [])
  }

  // What every interleaving keeps

  /** The frames of one call on the wire, in order. */
  function Of(origins: seq<(nat, nat)>, call: nat): seq<nat> {
    if origins == [] then []
    else
      var last := origins[|origins| - 1];
      Of(origins[..|origins| - 1], call) + if last.0 == call then [last.1] else []
  }

  function UpTo(n: nat): (s: seq<nat>)
    ensures |s| == n && forall i :: 0 <= i < n ==> s[i] == i
  {
    seq(n, i => i)
  }

  function FramesOf(casts: seq<Cast>, call: nat): nat {
    if call < |casts| && casts[call].Posted? then casts[call].frames else 0
  }

  /** Where a call is, its goroutine is; no two are in the same call. */
  ghost predicate Owned(st: State) {
    && (forall t :: 0 <= t < |st.threads| && !st.threads[t].Idle? ==>
          && st.threads[t].call < |st.casts|
          && (st.casts[st.threads[t].call].Drawn? <==> st.threads[t].Cutting?))
    && (forall t, u :: 0 <= t < u < |st.threads| && !st.threads[t].Idle? && !st.threads[u].Idle? ==>
          st.threads[t].call != st.threads[u].call)
  }

  /** A message on the wire is the frame its origin says. */
  ghost predicate IsFrame(lib: Library, s: Secret, start: uint32, casts: seq<Cast>, message: Bytes, origin: (nat, nat))
    requires s.timeWindow > 0 && |s.userID| == 4
  {
    var (call, j) := origin;
    && call < |casts| && casts[call].Posted? && casts[call].sending.k >= 1
    && j < |casts[call].sending.Coded(s).Shards(lib)|
    && message == Frame(lib, Id(start, call), casts[call].sending.Coded(s), j)
  }

  ghost predicate IsPosted(lib: Library, s: Secret, x: Cast)
    requires s.timeWindow > 0 && |s.userID| == 4
  {
    x.Posted? ==>
      x.sending.k >= 1 && x.frames <= |x.sending.Coded(s).Shards(lib)| && Encodes(lib, x.sending.Coded(s))
  }

  /** Every message on the wire is the frame its origin says, and the frames of each call are there once, in order. */
  ghost predicate Traced(lib: Library, s: Secret, start: uint32, st: State)
    requires Formed(s, st)
  {
    && |st.wire| == |st.origins|
    && (forall call: nat :: Of(st.origins, call) == UpTo(FramesOf(st.casts, call)))
    && (forall w :: 0 <= w < |st.wire| ==> IsFrame(lib, s, start, st.casts, st.wire[w], st.origins[w]))
    && (forall i :: 0 <= i < |st.casts| ==> IsPosted(lib, s, st.casts[i]))
  }

  lemma StepFormed(lib: Library, s: Secret, start: uint32, st: State, a: Action)
    requires Formed(s, st) && Enabled(lib, s, st, a)
    ensures Formed(s, Next(lib, s, start, st, a))
  {
    hide Frame, Coding.Shards, Adaptive.Sound;
  }

  lemma StepOwned(lib: Library, s: Secret, start: uint32, st: State, a: Action)
    requires Formed(s, st) && Enabled(lib, s, st, a) && Owned(st)
    ensures Owned(Next(lib, s, start, st, a))
  {
    var st' := Next(lib, s, start, st, a);
    hide Frame, Coding.Shards, Encodes, Turn, Cut, Mode.Valid, Formed, GroupAfter;
    forall t | 0 <= t < |st'.threads| && t != a.thread ensures st'.threads[t] == st.threads[t] {
    }
    assert !st'.threads[a.thread].Idle? ==>
      st'.threads[a.thread].call == if a.move.Draw? then |st.casts| else st.threads[a.thread].call;
  }

  /** A frame stays the frame of its call while the call's packet stays as it was cut. */
  lemma StillFrame(lib: Library, s: Secret, start: uint32, casts: seq<Cast>, casts': seq<Cast>, message: Bytes, origin: (nat, nat))
    requires s.timeWindow > 0 && |s.userID| == 4 && IsFrame(lib, s, start, casts, message, origin) && |casts| <= |casts'|
    requires forall i :: 0 <= i < |casts| && casts[i].Posted? ==> casts'[i].Posted? && casts'[i].sending == casts[i].sending
    ensures IsFrame(lib, s, start, casts', message, origin)
  {
  }

  /** Nothing is posted: calls may be drawn, or cut without a frame on the wire yet. */
  lemma QuietTraced(lib: Library, s: Secret, start: uint32, st: State, st': State)
    requires Formed(s, st) && Formed(s, st') && Traced(lib, s, start, st)
    requires st'.wire == st.wire && st'.origins == st.origins && |st.casts| <= |st'.casts|
    requires forall i :: 0 <= i < |st.casts| && st.casts[i].Posted? ==> st'.casts[i] == st.casts[i]
    requires forall i :: 0 <= i < |st'.casts| && st'.casts[i].Posted? && !(i < |st.casts| && st.casts[i].Posted?) ==>
      st'.casts[i].frames == 0 && Encodes(lib, st'.casts[i].sending.Coded(s))
    ensures Traced(lib, s, start, st')
  {
    forall w | 0 <= w < |st.wire| ensures IsFrame(lib, s, start, st'.casts, st'.wire[w], st'.origins[w]) {
      StillFrame(lib, s, start, st.casts, st'.casts, st.wire[w], st.origins[w]);
    }
    hide IsFrame, Of, Coding.Shards, Encodes, Sending.Coded;
    forall call: nat ensures Of(st'.origins, call) == UpTo(FramesOf(st'.casts, call)) {
      assert FramesOf(st'.casts, call) == FramesOf(st.casts, call);
    }
  }

  lemma OfMore(origins: seq<(nat, nat)>, last: (nat, nat), call: nat)
    ensures Of(origins + [last], call) == Of(origins, call) + if last.0 == call then [last.1] else []
  {
    assert (origins + [last])[..|origins|] == origins;
  }

  lemma PostOf(st: State, casts': seq<Cast>, call: nat, c: nat)
    requires call < |st.casts| && st.casts[call].Posted?
    requires casts' == st.casts[call := st.casts[call].(frames := st.casts[call].frames + 1)]
    requires Of(st.origins, c) == UpTo(FramesOf(st.casts, c))
    ensures Of(st.origins + [(call, st.casts[call].frames)], c) == UpTo(FramesOf(casts', c))
  {
    var j := st.casts[call].frames;
    OfMore(st.origins, (call, j), c);
    assert UpTo(j) + [j] == UpTo(j + 1);
    hide Of;
  }

  lemma PostFrames(lib: Library, s: Secret, start: uint32, casts: seq<Cast>, call: nat, message: Bytes, origin: (nat, nat))
    requires s.timeWindow > 0 && |s.userID| == 4 && IsFrame(lib, s, start, casts, message, origin)
    requires call < |casts| && casts[call].Posted?
    ensures IsFrame(lib, s, start, casts[call := casts[call].(frames := casts[call].frames + 1)], message, origin)
  {
    StillFrame(lib, s, start, casts, casts[call := casts[call].(frames := casts[call].frames + 1)], message, origin);
  }

  /** One more frame of a call is on the wire. */
  lemma PostTraced(lib: Library, s: Secret, start: uint32, st: State, a: Action)
    requires Formed(s, st) && Enabled(lib, s, st, a) && Traced(lib, s, start, st) && a.move.Post?
    requires Formed(s, Next(lib, s, start, st, a))
    ensures Traced(lib, s, start, Next(lib, s, start, st, a))
  {
    var st' := Next(lib, s, start, st, a);
    var call := st.threads[a.thread].call;
    assert st'.casts == st.casts[call := st.casts[call].(frames := st.casts[call].frames + 1)];
    assert IsFrame(lib, s, start, st'.casts, st'.wire[|st.wire|], st'.origins[|st.wire|]);
    assert IsPosted(lib, s, st.casts[call]) && IsPosted(lib, s, st'.casts[call]);
    hide IsFrame, IsPosted, Of, FramesOf, Coding.Shards, Encodes, Sending.Coded, Frame, GroupAfter, Formed;
    forall w | 0 <= w < |st.wire| ensures IsFrame(lib, s, start, st'.casts, st'.wire[w], st'.origins[w]) {
      PostFrames(lib, s, start, st.casts, call, st.wire[w], st.origins[w]);
    }
    forall c: nat ensures Of(st'.origins, c) == UpTo(FramesOf(st'.casts, c)) {
      PostOf(st, st'.casts, call, c);
    }
  }

  lemma StepTraced(lib: Library, s: Secret, start: uint32, st: State, a: Action)
    requires Formed(s, st) && Enabled(lib, s, st, a) && Traced(lib, s, start, st)
    ensures Formed(s, Next(lib, s, start, st, a)) && Traced(lib, s, start, Next(lib, s, start, st, a))
  {
    StepFormed(lib, s, start, st, a);
    hide Frame, Coding.Shards, Traced, Turn, GroupAfter;
    if a.move.Post? {
      PostTraced(lib, s, start, st, a);
    } else {
      QuietTraced(lib, s, start, st, Next(lib, s, start, st, a));
    }
  }

  ghost predicate Run(lib: Library, s: Secret, start: uint32, st: State, schedule: seq<Action>)
    requires Formed(s, st)
    decreases schedule
  {
    schedule != [] ==>
      && Enabled(lib, s, st, schedule[0])
      && (StepFormed(lib, s, start, st, schedule[0]);
          Run(lib, s, start, Next(lib, s, start, st, schedule[0]), schedule[1..]))
  }

  ghost function After(lib: Library, s: Secret, start: uint32, st: State, schedule: seq<Action>): (end: State)
    requires Formed(s, st) && Run(lib, s, start, st, schedule)
    ensures Formed(s, end)
    decreases schedule
  {
    if schedule == [] then st
    else
      StepFormed(lib, s, start, st, schedule[0]);
      After(lib, s, start, Next(lib, s, start, st, schedule[0]), schedule[1..])
  }

  /** In every interleaving every message on the wire is a frame of a call, under the id the call drew and cut as the call cut
      its packet, and the frames of each call are on the wire once each and in order. */
  lemma {:induction false} RunTraced(lib: Library, s: Secret, start: uint32, st: State, schedule: seq<Action>)
    requires Formed(s, st) && Run(lib, s, start, st, schedule) && Traced(lib, s, start, st) && Owned(st)
    ensures Traced(lib, s, start, After(lib, s, start, st, schedule)) && Owned(After(lib, s, start, st, schedule))
    decreases schedule
  {
    if schedule != [] {
      StepTraced(lib, s, start, st, schedule[0]);
      StepOwned(lib, s, start, st, schedule[0]);
      hide Next, Enabled, Traced, Owned;
      RunTraced(lib, s, start, Next(lib, s, start, st, schedule[0]), schedule[1..]);
    }
  }

  // What the calls carry

  /** The packets drawn, in the order of the id counter. */
  function Draws(schedule: seq<Action>): seq<Op> {
    if schedule == [] then []
    else (if schedule[0].move.Draw? then [schedule[0].move.op] else []) + Draws(schedule[1..])
  }

  /** Cut with the one split of a static encoder, or with the data shards and a parity in the range of the controller. */
  ghost predicate InRange(mode: Mode, k: nat, p: nat) {
    match mode
    case Fixed(k', p') => k == k' && p == p'
    case Adapting(config, _, _) => k == config.dataShards && config.minParity <= p <= config.maxParity
  }

  /** A call carries the packet it was given, with the clock readings and the nonce of its encryption. */
  ghost predicate CarriesOne(mode: Mode, x: Cast, op: Op) {
    && op.Send?
    && match x
       case Drawn(op') => op' == op
       case Posted(sending, _) =>
         && sending.packet == op.packet && sending.at == op.now && sending.stamped == op.stamped && sending.nonce == op.nonce
         && sending.timestamp == op.timestamp && InRange(mode, sending.k, sending.p)
  }

  ghost predicate Carries(st: State, ops: seq<Op>) {
    |st.casts| == |ops| && forall i :: 0 <= i < |ops| ==> CarriesOne(st.mode, st.casts[i], ops[i])
  }

  /** What each step does to the encoder: a packet is cut with the parity in force, the shards of a packet are counted as sent
      when they are reported, reported losses are counted, and the adjustment loop adjusts. */
  lemma StepModes(lib: Library, s: Secret, start: uint32, st: State, a: Action)
    requires Formed(s, st) && Enabled(lib, s, st, a)
    ensures var st' := Next(lib, s, start, st, a);
      match a.move
      case Record =>
        var x := st.casts[st.threads[a.thread].call].sending;
        if st.mode.Fixed? then st'.mode == st.mode
        else st'.mode == st.mode.(loss := st.mode.loss.(sent := st.mode.loss.sent + x.k + x.p))
      case Report(count) =>
        if st.mode.Fixed? then st'.mode == st.mode
        else
          && st'.mode.Adapting? && st'.mode.config == st.mode.config && st'.mode.control == st.mode.control
          && st'.mode.loss.sent == st.mode.loss.sent && st'.mode.loss.lost == st.mode.loss.lost + count
      case Adjust =>
        if st.mode.Fixed? then st'.mode == st.mode
        else
          && st'.mode.Adapting? && st'.mode.config == st.mode.config && st'.mode.loss == st.mode.loss
          && st'.mode.control == Adaptive.Adjust(st.mode.config, st.mode.control, st.mode.loss.lossRate)
      case Slice =>
        var call := st.threads[a.thread].call;
        && st'.mode == st.mode
        && (st'.casts[call].Posted? ==>
              && st'.casts[call].sending.k == (if st.mode.Fixed? then st.mode.k else st.mode.config.dataShards)
              && st'.casts[call].sending.p == (if st.mode.Fixed? then st.mode.p else st.mode.control.parity))
      case _ => st'.mode == st.mode
  {
    hide Frame, Coding.Shards, Encodes, GroupAfter, Adaptive.Adjust, Adaptive.Sound, Adaptive.Smooth, Adaptive.Ratio;
  }

  lemma StepCarries(lib: Library, s: Secret, start: uint32, st: State, a: Action, ops: seq<Op>)
    requires Formed(s, st) && Enabled(lib, s, st, a) && Carries(st, ops)
    ensures Carries(Next(lib, s, start, st, a), ops + if a.move.Draw? then [a.move.op] else [])
  {
    StepModes(lib, s, start, st, a);
    var st' := Next(lib, s, start, st, a);
    hide Frame, Coding.Shards, Encodes, GroupAfter, Turn, Adaptive.Adjust, Adaptive.Smooth;
    forall i | 0 <= i < |ops| ensures CarriesOne(st'.mode, st'.casts[i], ops[i]) {
      assert CarriesOne(st.mode, st.casts[i], ops[i]);
    }
  }

  /** In every interleaving the i-th call that draws an id carries the packet it was given, cut in a way the encoder can cut. */
  lemma {:induction false} RunCarries(lib: Library, s: Secret, start: uint32, st: State, schedule: seq<Action>, ops: seq<Op>)
    requires Formed(s, st) && Run(lib, s, start, st, schedule) && Carries(st, ops)
    ensures Carries(After(lib, s, start, st, schedule), ops + Draws(schedule))
    decreases schedule
  {
    if schedule == [] {
      assert ops + [] == ops;
    } else {
      var drawn := if schedule[0].move.Draw? then [schedule[0].move.op] else [];
      StepFormed(lib, s, start, st, schedule[0]);
      StepCarries(lib, s, start, st, schedule[0], ops);
      hide Next, Enabled, Carries;
      RunCarries(lib, s, start, Next(lib, s, start, st, schedule[0]), schedule[1..], ops + drawn);
      assert ops + drawn + Draws(schedule[1..]) == ops + Draws(schedule);
    }
  }

  // From concurrent senders to the receiver

  /** The packets sent: those not cut yet have no frame on the wire. */
  ghost function SentBy(s: Secret, start: uint32, st: State): (sent: seq<Sent>)
    requires Formed(s, st)
    ensures |sent| == |st.casts|
  {
    seq(|st.casts|, i requires 0 <= i < |st.casts| =>
      match st.casts[i]
      case Drawn(op) => Sent(Id(start, i), Cut(st.mode, op), 0)
      case Posted(sending, frames) => Sent(Id(start, i), sending, frames))
  }

  lemma SentNumbered(s: Secret, start: uint32, st: State)
    requires Formed(s, st)
    ensures Numbered(start, SentBy(s, start, st))
  {
    hide Cut, GroupAfter;
  }

  /** Every frame the network can deliver is on the wire. */
  lemma OnWire(lib: Library, s: Secret, start: uint32, st: State, call: nat, j: nat)
    requires Formed(s, st) && Traced(lib, s, start, st) && call < |st.casts| && st.casts[call].Posted? && j < st.casts[call].frames
    ensures j < |st.casts[call].sending.Coded(s).Shards(lib)|
    ensures Frame(lib, Id(start, call), st.casts[call].sending.Coded(s), j) in st.wire
  {
    hide Frame, Coding.Shards, Sending.Coded, Encodes, GroupAfter;
    assert Of(st.origins, call)[j] == j;
    var w := OfIndex(st.origins, call, j);
  }

  lemma {:induction false} OfIndex(origins: seq<(nat, nat)>, call: nat, i: nat) returns (w: nat)
    requires i < |Of(origins, call)|
    ensures w < |origins| && origins[w] == (call, Of(origins, call)[i])
    decreases |origins|
  {
    var last := |origins| - 1;
    if i < |Of(origins[..last], call)| {
      w := OfIndex(origins[..last], call, i);
    } else {
      w := last;
    }
  }

  /** Every packet can be received: the largest parity leaves room for the data shards in a byte, and no payload is too long. */
  ghost predicate Receivable(st: State) {
    && Fits(st.mode)
    && forall i :: 0 <= i < |st.casts| ==>
         match st.casts[i]
         case Drawn(op) => Postable(op)
         case Posted(sending, _) => sending.Valid()
  }

  lemma CutValid(mode: Mode, op: Op)
    requires mode.Valid() && Fits(mode) && op.Send? && Postable(op)
    ensures Cut(mode, op).Valid()
  {
  }

  lemma StepReceivable(lib: Library, s: Secret, start: uint32, st: State, a: Action)
    requires Formed(s, st) && Enabled(lib, s, st, a) && Receivable(st) && (a.move.Draw? ==> Postable(a.move.op))
    ensures Receivable(Next(lib, s, start, st, a))
  {
    if a.move.Slice? {
      CutValid(st.mode, st.casts[st.threads[a.thread].call].op);
    }
    assert Fits(Next(lib, s, start, st, a).mode);
    hide Frame, Coding.Shards, Encodes, Turn, Cut, Sending.Valid, Fits;
  }

  lemma {:induction false} RunReceivable(lib: Library, s: Secret, start: uint32, st: State, schedule: seq<Action>)
    requires Formed(s, st) && Run(lib, s, start, st, schedule) && Receivable(st)
    requires forall i :: 0 <= i < |schedule| && schedule[i].move.Draw? ==> Postable(schedule[i].move.op)
    ensures Receivable(After(lib, s, start, st, schedule))
    decreases schedule
  {
    if schedule != [] {
      StepFormed(lib, s, start, st, schedule[0]);
      StepReceivable(lib, s, start, st, schedule[0]);
      assert forall i :: 0 <= i < |schedule| - 1 ==> schedule[1..][i] == schedule[i + 1];
      hide Next, Enabled, Receivable, Postable;
      RunReceivable(lib, s, start, Next(lib, s, start, st, schedule[0]), schedule[1..]);
    }
  }

  predicate Busy(st: State, call: nat) {
    exists t :: 0 <= t < |st.threads| && !st.threads[t].Idle? && st.threads[t].call == call
  }

  ghost predicate Done(lib: Library, s: Secret, x: Cast)
    requires s.timeWindow > 0 && |s.userID| == 4
  {
    x.Posted? && x.sending.k >= 1 && x.frames == |x.sending.Coded(s).Shards(lib)|
  }

  /** A call that no goroutine is in has posted all its frames. */
  ghost predicate Complete(lib: Library, s: Secret, st: State)
    requires Formed(s, st)
  {
    forall i :: 0 <= i < |st.casts| ==> Busy(st, i) || Done(lib, s, st.casts[i])
  }

  lemma CutEncodes(lib: Library, s: Secret, mode: Mode, op: Op)
    requires Contract(lib) && s.Valid() && mode.Valid() && Fits(mode) && op.Send? && Postable(op)
    ensures Encodes(lib, Cut(mode, op).Coded(s))
  {
    CutValid(mode, op);
    CodedOne(s, Cut(mode, op));
    CodedShape(s, Cut(mode, op));
    EncodesLegal(lib, Cut(mode, op).Coded(s));
    hide Contract, IdealCipher, Sending.Coded, Encodes;
  }

  lemma StillBusy(st: State, st': State, t: nat, call: nat)
    requires |st'.threads| == |st.threads| && t < |st.threads| && Busy(st, call)
    requires forall u :: 0 <= u < |st.threads| && u != t ==> st'.threads[u] == st.threads[u]
    requires !st.threads[t].Idle? && st.threads[t].call == call ==> !st'.threads[t].Idle? && st'.threads[t].call == call
    ensures Busy(st', call)
  {
    var u :| 0 <= u < |st.threads| && !st.threads[u].Idle? && st.threads[u].call == call;
    assert !st'.threads[u].Idle? && st'.threads[u].call == call;
  }

  lemma StepComplete(lib: Library, s: Secret, start: uint32, st: State, a: Action)
    requires Contract(lib) && s.Valid() && Formed(s, st) && Enabled(lib, s, st, a) && Receivable(st) && Complete(lib, s, st)
    requires !a.move.GiveUp? && Formed(s, Next(lib, s, start, st, a))
    ensures Complete(lib, s, Next(lib, s, start, st, a))
  {
    var st' := Next(lib, s, start, st, a);
    if a.move.Slice? {
      var op := st.casts[st.threads[a.thread].call].op;
      CutEncodes(lib, s, st.mode, op);
    }
    hide Contract, IdealCipher, Frame, Coding.Shards, Sending.Coded, Encodes, GroupAfter, Turn, Cut, Receivable, Mode.Valid;
    forall i | 0 <= i < |st'.casts| ensures Busy(st', i) || Done(lib, s, st'.casts[i]) {
      if !st.threads[a.thread].Idle? && st.threads[a.thread].call == i {
        assert st'.threads[a.thread].Idle? || st'.threads[a.thread].call == i;
      } else if i < |st.casts| {
        assert st'.casts[i] == st.casts[i];
        if Busy(st, i) {
          StillBusy(st, st', a.thread, i);
        }
      } else {
        assert st'.threads[a.thread] == Cutting(i);
      }
    }
  }

  /** The transport takes every message, and every packet drawn is one a receiver can take. */
  ghost predicate AllTaken(schedule: seq<Action>) {
    forall i :: 0 <= i < |schedule| ==> !schedule[i].move.GiveUp? && (schedule[i].move.Draw? ==> Postable(schedule[i].move.op))
  }

  lemma RunFirst(lib: Library, s: Secret, start: uint32, st: State, schedule: seq<Action>) returns (st': State)
    requires Formed(s, st) && Run(lib, s, start, st, schedule) && schedule != [] && AllTaken(schedule)
    ensures Enabled(lib, s, st, schedule[0]) && st' == Next(lib, s, start, st, schedule[0]) && Formed(s, st')
    ensures Run(lib, s, start, st', schedule[1..]) && AllTaken(schedule[1..])
    ensures After(lib, s, start, st, schedule) == After(lib, s, start, st', schedule[1..])
    ensures !schedule[0].move.GiveUp? && (schedule[0].move.Draw? ==> Postable(schedule[0].move.op))
  {
    st' := Next(lib, s, start, st, schedule[0]);
    StepFormed(lib, s, start, st, schedule[0]);
    assert forall i :: 0 <= i < |schedule| - 1 ==> schedule[1..][i] == schedule[i + 1];
    hide Next, Enabled, Formed, Postable;
  }

  lemma {:induction false} RunComplete(lib: Library, s: Secret, start: uint32, st: State, schedule: seq<Action>)
    requires Contract(lib) && s.Valid() && Formed(s, st) && Run(lib, s, start, st, schedule)
    requires Receivable(st) && Complete(lib, s, st) && AllTaken(schedule)
    ensures Complete(lib, s, After(lib, s, start, st, schedule))
    decreases schedule
  {
    if schedule == [] {
      assert After(lib, s, start, st, schedule) == st;
    }
    hide *;
    if schedule != [] {
      var st' := RunFirst(lib, s, start, st, schedule);
      StepReceivable(lib, s, start, st, schedule[0]);
      StepComplete(lib, s, start, st, schedule[0]);
      RunComplete(lib, s, start, st', schedule[1..]);
    }
  }

  /** As long as the transport takes every message, each call ends with all the frames of its packet on the wire: once all
      goroutines have come out, every packet drawn has been cut and every one of its frames posted. */
  lemma AllPosted(lib: Library, s: Secret, mode: Mode, start: uint32, n: nat, schedule: seq<Action>)
    requires Contract(lib) && s.Valid() && mode.Valid() && Fits(mode) && Formed(s, Start(mode, n))
    requires Run(lib, s, start, Start(mode, n), schedule) && AllTaken(schedule)
    requires var end := After(lib, s, start, Start(mode, n), schedule); forall t :: 0 <= t < |end.threads| ==> end.threads[t].Idle?
    ensures var end := After(lib, s, start, Start(mode, n), schedule);
      forall i :: 0 <= i < |end.casts| ==>
        end.casts[i].Posted? && end.casts[i].sending.k >= 1
        && end.casts[i].frames == |end.casts[i].sending.Coded(s).Shards(lib)|
  {
    StartTraced(lib, s, start, mode, n);
    hide Contract, IdealCipher, Run, After, AllTaken, Receivable, Formed, Sending.Coded, Coding.Shards;
    RunComplete(lib, s, start, Start(mode, n), schedule);
  }

  lemma SentValid(s: Secret, start: uint32, st: State)
    requires Formed(s, st) && Receivable(st)
    ensures forall i :: 0 <= i < |SentBy(s, start, st)| ==> SentBy(s, start, st)[i].sending.Valid()
  {
    forall i | 0 <= i < |st.casts| ensures SentBy(s, start, st)[i].sending.Valid() {
      if st.casts[i].Drawn? {
        CutValid(st.mode, st.casts[i].op);
      }
      hide Cut, Sending.Valid, Postable, Fits, GroupAfter;
    }
  }

  lemma StartTraced(lib: Library, s: Secret, start: uint32, mode: Mode, n: nat)
    requires s.timeWindow > 0 && |s.userID| == 4 && mode.Valid()
    ensures Formed(s, Start(mode, n)) && Traced(lib, s, start, Start(mode, n)) && Owned(Start(mode, n))
    ensures Fits(mode) ==> Receivable(Start(mode, n))
    ensures Complete(lib, s, Start(mode, n))
  {
    forall call: nat ensures Of([], call) == UpTo(0) {
    }
  }

  /** From end to end with any number of goroutines sending at once: whatever they and the adjustment loop interleave, and
      whatever the network does to the frames they have posted, the receiver dispatches exactly what it should. */
  lemma ConcurrentEndToEnd(
    lib: Library, s: Secret, mode: Mode, start: uint32, n: nat, schedule: seq<Action>, timeout: int, flights: seq<Flight>)
    requires Contract(lib) && s.Valid() && mode.Valid() && Fits(mode) && Formed(s, Start(mode, n))
    requires forall i :: 0 <= i < |schedule| && schedule[i].move.Draw? ==> Postable(schedule[i].move.op)
    requires Run(lib, s, start, Start(mode, n), schedule)
    requires AllFly(SentBy(s, start, After(lib, s, start, Start(mode, n), schedule)), flights) && Clocked(flights)
    requires Timely(s, timeout, SentBy(s, start, After(lib, s, start, Start(mode, n), schedule)), map[], map[], flights)
    ensures var hops := Hops(SentBy(s, start, After(lib, s, start, Start(mode, n), schedule)), flights);
      && Proper(hops) && AllPossible(timeout, map[], Events(s, hops))
      && var received := ReceivedAll(lib, Events(s, hops));
         HandleAll(s, received, Readings(hops), CollectorSafety.Outputs(lib, timeout, EMPTY, received))
         == Expected(s, hops, IdealOutputs(timeout, map[], Events(s, hops)))
  {
    StartTraced(lib, s, start, mode, n);
    RunReceivable(lib, s, start, Start(mode, n), schedule);
    var st := After(lib, s, start, Start(mode, n), schedule);
    SentNumbered(s, start, st);
    SentValid(s, start, st);
    hide IdealCipher, Timely, Proper, Hops, Numbered, Sending.Valid, AllPossible, SentBy, Run, After, Contract, Formed, Receivable;
    AllReceived(lib, s, start, SentBy(s, start, st), timeout, flights);
  }
}
