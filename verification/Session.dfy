/** From the sender to the receiver: packets encrypted and sent one after another while the parity adapts, and what the
    other end makes of any run of the network that carries their frames
    (internal/tunnel/tunnel.go, internal/fec/encoder.go, internal/fec/adaptive.go).
 */
module Session {
  import opened Basics
  import opened ErasureCode
  import opened Shards
  import opened CollectorSafety
  import opened Delivery
  import opened Encoding
  import opened Envelope
  import opened Tunnel
  import Adaptive
  import Packets

  /** How the encoder cuts packets: always alike, or as the controller has it. */
  datatype Mode = Fixed(k: nat, p: nat) | Adapting(config: Adaptive.Config, control: Adaptive.Controller, loss: Adaptive.Estimate) {
    ghost predicate Valid() {
      match this
      case Fixed(k, p) => k >= 1 && p >= 1
      case Adapting(config, control, _) => config.dataShards >= 1 && config.minParity >= 1 && Adaptive.Sound(config, control)
    }

    ghost function DataShards(): (k: nat)
      requires Valid()
      ensures k >= 1
    {
      if Fixed? then k else config.dataShards
    }

    ghost function ParityShards(): (p: nat)
      requires Valid()
      ensures p >= 1
    {
      if Fixed? then p else control.parity
    }
  }

  /** What happens at the sender: a packet is encrypted and sent, the adjustment loop ticks, losses are reported. */
  datatype Op =
    | Send(packet: Packets.Packet, now: nat, stamped: nat, nonce: Bytes, timestamp: uint32, accepted: nat)
    | Tick
    | Lose(count: nat)

  /** A packet sent under an id, of whose frames the transport took at most so many. */
  datatype Sent = Sent(id: uint32, sending: Sending, accepted: nat)

  ghost function Cut(mode: Mode, op: Op): (x: Sending)
    requires mode.Valid() && op.Send?
    ensures x.k >= 1
  {
    Sending(op.packet, op.now, op.stamped, op.nonce, mode.DataShards(), mode.ParityShards(), op.timestamp)
  }

  /** What an operation does to the way packets are cut. */
  ghost function Turn(lib: Library, s: Secret, mode: Mode, op: Op): (mode': Mode)
    requires s.timeWindow > 0 && |s.userID| == 4 && mode.Valid()
    ensures mode'.Valid()
  {
    if mode.Fixed? then mode
    else
      match op
      case Send(_, _, _, _, _, _) =>
        if Encodes(lib, Cut(mode, op).Coded(s))
        then mode.(loss := Adaptive.Observe(mode.loss, Adaptive.Sent(mode.DataShards() + mode.ParityShards())))
        else mode
      case Tick =>
        Adaptive.AdjustSound(mode.config, mode.control, mode.loss.lossRate);
        mode.(control := Adaptive.Adjust(mode.config, mode.control, mode.loss.lossRate))
      case Lose(count) => mode.(loss := Adaptive.Observe(mode.loss, Adaptive.Lost(count)))
  }

  ghost function TurnAll(lib: Library, s: Secret, mode: Mode, ops: seq<Op>): (mode': Mode)
    requires s.timeWindow > 0 && |s.userID| == 4 && mode.Valid()
    ensures mode'.Valid()
    decreases ops
  {
    if ops == [] then mode else TurnAll(lib, s, Turn(lib, s, mode, ops[0]), ops[1..])
  }

  /** The packets a session sends, each under the next id and cut with the parity in force when it is sent. */
  ghost function Planned(lib: Library, s: Secret, mode: Mode, id: uint32, ops: seq<Op>): (sent: seq<Sent>)
    requires s.timeWindow > 0 && |s.userID| == 4 && mode.Valid()
    ensures forall i :: 0 <= i < |sent| ==> sent[i].sending.k >= 1
    decreases ops
  {
    if ops == [] then []
    else if ops[0].Send? then
      [Sent(NextGroup(id), Cut(mode, ops[0]), ops[0].accepted)]
      + Planned(lib, s, Turn(lib, s, mode, ops[0]), NextGroup(id), ops[1..])
    else Planned(lib, s, Turn(lib, s, mode, ops[0]), id, ops[1..])
  }

  /** The frames of one packet that the transport takes. */
  ghost function Taken(lib: Library, s: Secret, x: Sent): seq<Bytes>
    requires s.timeWindow > 0 && |s.userID| == 4 && x.sending.k >= 1
  {
    var packet := x.sending.Coded(s);
    if Encodes(lib, packet) then Frames(lib, x.id, packet)[..Min(x.accepted, |packet.Shards(lib)|)] else []
  }

  ghost function Wire(lib: Library, s: Secret, sent: seq<Sent>): seq<Bytes>
    requires s.timeWindow > 0 && |s.userID| == 4
    requires forall i :: 0 <= i < |sent| ==> sent[i].sending.k >= 1
  {
    if sent == [] then [] else Taken(lib, s, sent[0]) + Wire(lib, s, sent[1..])
  }

  // The ids and the parities of a session

  lemma {:induction false} GroupShift(id: uint32, n: nat)
    ensures GroupAfter(NextGroup(id), n) == GroupAfter(id, n + 1)
  {
    if n > 0 {
      GroupShift(id, n - 1);
    }
  }

  /** The i-th packet goes out under id start + i + 1 as a uint32. */
  lemma {:induction false} PlannedId(lib: Library, s: Secret, mode: Mode, start: uint32, ops: seq<Op>, i: nat)
    requires s.timeWindow > 0 && |s.userID| == 4 && mode.Valid()
    requires i < |Planned(lib, s, mode, start, ops)|
    ensures Planned(lib, s, mode, start, ops)[i].id == GroupAfter(start, i + 1)
    decreases ops
  {
    var mode' := Turn(lib, s, mode, ops[0]);
    hide Turn, Cut;
    if !ops[0].Send? {
      PlannedId(lib, s, mode', start, ops[1..], i);
    } else if i == 0 {
      assert GroupAfter(start, 0) == start;
    } else {
      PlannedId(lib, s, mode', NextGroup(start), ops[1..], i - 1);
      GroupShift(start, i);
    }
  }

  /** The packets a session is asked to send. */
  function Sends(ops: seq<Op>): (sends: seq<Op>)
    ensures forall i :: 0 <= i < |sends| ==> sends[i].Send?
  {
    if ops == [] then [] else (if ops[0].Send? then [ops[0]] else []) + Sends(ops[1..])
  }

  /** The i-th packet sent is the i-th it was asked to send, with the clock readings and the nonce of its encryption. */
  lemma {:induction false} PlannedCarries(lib: Library, s: Secret, mode: Mode, start: uint32, ops: seq<Op>)
    requires s.timeWindow > 0 && |s.userID| == 4 && mode.Valid()
    ensures var sent, sends := Planned(lib, s, mode, start, ops), Sends(ops);
      && |sent| == |sends|
      && forall i :: 0 <= i < |sent| ==>
           var x := sent[i].sending;
           && x.packet == sends[i].packet && x.at == sends[i].now && x.stamped == sends[i].stamped && x.nonce == sends[i].nonce
           && x.timestamp == sends[i].timestamp && sent[i].accepted == sends[i].accepted
    decreases ops
  {
    hide NextGroup, Encodes, Mode.DataShards, Mode.ParityShards, Mode.Valid;
    if ops != [] {
      var mode', id := Turn(lib, s, mode, ops[0]), if ops[0].Send? then NextGroup(start) else start;
      hide Turn;
      PlannedCarries(lib, s, mode', id, ops[1..]);
      var sent, sends := Planned(lib, s, mode', id, ops[1..]), Sends(ops[1..]);
      if ops[0].Send? {
        assert Planned(lib, s, mode, start, ops) == [Sent(id, Cut(mode, ops[0]), ops[0].accepted)] + sent;
        assert Sends(ops) == [ops[0]] + sends;
      } else {
        assert Planned(lib, s, mode, start, ops) == sent && Sends(ops) == sends;
      }
    }
  }

  /** A packet is cut with the parity that the operations before it have led to, and the rest of the session goes on from there. */
  lemma {:induction false} PlannedSplits(lib: Library, s: Secret, mode: Mode, start: uint32, before: seq<Op>, after: seq<Op>)
    requires s.timeWindow > 0 && |s.userID| == 4 && mode.Valid()
    ensures var first := Planned(lib, s, mode, start, before);
      Planned(lib, s, mode, start, before + after)
      == first + Planned(lib, s, TurnAll(lib, s, mode, before), GroupAfter(start, |first|), after)
    decreases before
  {
    hide Turn, Cut, NextGroup;
    if before == [] {
      assert before + after == after;
      assert GroupAfter(start, 0) == start;
    } else {
      var op, mode' := before[0], Turn(lib, s, mode, before[0]);
      assert (before + after)[0] == op && (before + after)[1..] == before[1..] + after;
      if op.Send? {
        PlannedSplits(lib, s, mode', NextGroup(start), before[1..], after);
        GroupShift(start, |Planned(lib, s, mode', NextGroup(start), before[1..])|);
      } else {
        PlannedSplits(lib, s, mode', start, before[1..], after);
      }
    }
  }

  /** Whatever the controller does, the packets of a session can be received when the largest parity leaves room for the
      data shards in a byte. */
  ghost predicate Fits(mode: Mode) {
    match mode
    case Fixed(k, p) => k + p <= 255
    case Adapting(config, _, _) => config.dataShards + config.maxParity <= 255
  }

  ghost predicate Postable(op: Op) {
    op.Send? ==>
      && |op.nonce| == NONCE_SIZE && IsWindow(op.now)
      && |op.packet.payload| <= 65535 - (Packets.HEADER_SIZE + NONCE_SIZE + Packets.BODY_SIZE + TAG_SIZE)
  }

  lemma {:induction false} PlannedValid(lib: Library, s: Secret, mode: Mode, start: uint32, ops: seq<Op>)
    requires s.timeWindow > 0 && |s.userID| == 4 && mode.Valid() && Fits(mode)
    requires forall i :: 0 <= i < |ops| ==> Postable(ops[i])
    ensures forall i :: 0 <= i < |Planned(lib, s, mode, start, ops)| ==> Planned(lib, s, mode, start, ops)[i].sending.Valid()
    decreases ops
  {
    if ops != [] {
      var mode' := Turn(lib, s, mode, ops[0]);
      assert Fits(mode');
      assert Postable(ops[0]) && forall i :: 0 <= i < |ops[1..]| ==> ops[1..][i] == ops[i + 1];
      assert ops[0].Send? ==> Cut(mode, ops[0]).Valid();
      hide Turn, Cut;
      PlannedValid(lib, s, mode', if ops[0].Send? then NextGroup(start) else start, ops[1..]);
    }
  }

  // The sender's objects

  ghost function ModeOf(encoder: FECEncoder): (mode: Mode)
    requires encoder.Valid() && encoder.Ready()
    reads encoder, encoder.adaptiveFEC, if encoder.adaptiveFEC != null then {encoder.adaptiveFEC.estimator} else {}
    ensures mode.Valid() && mode.DataShards() == encoder.DataShards() && mode.ParityShards() == encoder.ParityShards()
  {
    var k := encoder.DataShards();
    if encoder.Adapts()
    then Adapting(encoder.adaptiveFEC.config, encoder.adaptiveFEC.State(), encoder.adaptiveFEC.estimator.State())
    else Fixed(k, encoder.ParityShards())
  }

  /** One operation at the sender. */
  method Step(tunnel: Tunnel, encoder: FECEncoder, op: Op)
    requires tunnel.fecEncoder == encoder && encoder.Valid() && encoder.Ready() && tunnel.builder.Valid()
    modifies tunnel`wire, tunnel.builder`aeadCache, encoder, encoder.adaptiveFEC
    modifies if encoder.adaptiveFEC != null then {encoder.adaptiveFEC.estimator} else {}
    ensures encoder.Valid() && encoder.Ready() && tunnel.builder.Valid()
    ensures var s, mode := tunnel.builder.secret, old(ModeOf(encoder));
      && ModeOf(encoder) == Turn(encoder.lib, s, mode, op)
      && encoder.groupID == (if op.Send? then NextGroup(old(encoder.groupID)) else old(encoder.groupID))
      && tunnel.wire == old(tunnel.wire)
           + if op.Send? then Taken(encoder.lib, s, Sent(encoder.groupID, Cut(mode, op), op.accepted)) else []
  {
    hide Contract, IdealCipher;
    match op
    case Send(packet, now, stamped, nonce, timestamp, accepted) =>
      var data := tunnel.builder.EncryptPacket(packet, now, stamped, nonce);
      var ok := tunnel.SendPacket(data.value, timestamp, accepted);
    case Tick =>
      if encoder.Adapts() {
        encoder.adaptiveFEC.AdjustParity();
      }
    case Lose(count) =>
      if encoder.Adapts() {
        encoder.adaptiveFEC.estimator.RecordLost(count);
      }
  }

  lemma WireNone(lib: Library, s: Secret)
    requires s.timeWindow > 0 && |s.userID| == 4
    ensures Wire(lib, s, []) == []
  {
  }

  lemma WireFirst(lib: Library, s: Secret, mode: Mode, id: uint32, ops: seq<Op>)
    requires s.timeWindow > 0 && |s.userID| == 4 && mode.Valid() && ops != []
    ensures var op, mode' := ops[0], Turn(lib, s, mode, ops[0]);
      var id' := if op.Send? then NextGroup(id) else id;
      Wire(lib, s, Planned(lib, s, mode, id, ops))
      == (if op.Send? then Taken(lib, s, Sent(id', Cut(mode, op), op.accepted)) else [])
         + Wire(lib, s, Planned(lib, s, mode', id', ops[1..]))
  {
    hide Turn, Cut, Taken;
    var rest := Planned(lib, s, Turn(lib, s, mode, ops[0]), if ops[0].Send? then NextGroup(id) else id, ops[1..]);
    if ops[0].Send? {
      var first := Sent(NextGroup(id), Cut(mode, ops[0]), ops[0].accepted);
      assert ([first] + rest)[0] == first && ([first] + rest)[1..] == rest;
    }
  }

  /** A session at the sender leaves on the wire exactly the frames of its plan. */
  method Transmit(tunnel: Tunnel, encoder: FECEncoder, ops: seq<Op>)
    requires tunnel.fecEncoder == encoder && encoder.Valid() && encoder.Ready() && tunnel.builder.Valid()
    modifies tunnel`wire, tunnel.builder`aeadCache, encoder, encoder.adaptiveFEC
    modifies if encoder.adaptiveFEC != null then {encoder.adaptiveFEC.estimator} else {}
    ensures encoder.Valid() && encoder.Ready() && tunnel.builder.Valid()
    ensures var s, mode := tunnel.builder.secret, old(ModeOf(encoder));
      && ModeOf(encoder) == TurnAll(encoder.lib, s, mode, ops)
      && tunnel.wire == old(tunnel.wire) + Wire(encoder.lib, s, Planned(encoder.lib, s, mode, old(encoder.groupID), ops))
    decreases ops
  {
    hide Contract, IdealCipher, Turn, Cut, Taken, Wire, NextGroup, ModeOf, Mode.Valid, FECEncoder.Valid;
    if ops == [] {
      WireNone(encoder.lib, tunnel.builder.secret);
    } else {
      ghost var s, mode, id := tunnel.builder.secret, ModeOf(encoder), encoder.groupID;
      ghost var mode' := Turn(encoder.lib, s, mode, ops[0]);
      Step(tunnel, encoder, ops[0]);
      ghost var id', sent := encoder.groupID, tunnel.wire;
      Transmit(tunnel, encoder, ops[1..]);
      WireFirst(encoder.lib, s, mode, id, ops);
      assert tunnel.wire == sent + Wire(encoder.lib, s, Planned(encoder.lib, s, mode', id', ops[1..]));
    }
  }

  // The network and the receiver

  /** A frame of one of the session's packets arrives, or the receiver cleans up. */
  datatype Flight = Lands(call: nat, index: byte, now: int, clock: nat) | Sweeps(now: int)

  predicate Flies(sent: seq<Sent>, flight: Flight) {
    flight.Lands? ==>
      && flight.call < |sent|
      && flight.index as int < Min(sent[flight.call].accepted, sent[flight.call].sending.k + sent[flight.call].sending.p)
  }

  predicate AllFly(sent: seq<Sent>, flights: seq<Flight>) {
    forall i :: 0 <= i < |flights| ==> Flies(sent, flights[i])
  }

  function ToHop(sent: seq<Sent>, flight: Flight): Hop
    requires Flies(sent, flight)
  {
    match flight
    case Lands(call, index, now, clock) => Arrives(sent[call].id, sent[call].sending, index, now, clock)
    case Sweeps(now) => Cleans(now)
  }

  function Hops(sent: seq<Sent>, flights: seq<Flight>): (hops: seq<Hop>)
    requires AllFly(sent, flights)
    ensures |hops| == |flights| && forall i :: 0 <= i < |flights| ==> hops[i] == ToHop(sent, flights[i])
  {
    seq(|flights|, i requires 0 <= i < |flights| => ToHop(sent, flights[i]))
  }

  lemma FrameTaken(lib: Library, s: Secret, x: Sent, index: byte)
    requires Contract(lib) && s.Valid() && x.sending.Valid() && index as int < Min(x.accepted, x.sending.k + x.sending.p)
    ensures |x.sending.Coded(s).Shards(lib)| == x.sending.k + x.sending.p
    ensures Frame(lib, x.id, x.sending.Coded(s), index) in Taken(lib, s, x)
  {
    var packet := x.sending.Coded(s);
    CodedOne(s, x.sending);
    ShardsShape(lib, packet);
    EncodesLegal(lib, packet);
    hide Contract, IdealCipher, Coding.Shards, Frame, Content;
    assert Taken(lib, s, x)[index] == Frame(lib, x.id, packet, index);
  }

  lemma {:induction false} TakenOnWire(lib: Library, s: Secret, sent: seq<Sent>, i: nat, frame: Bytes)
    requires s.timeWindow > 0 && |s.userID| == 4 && i < |sent|
    requires forall j :: 0 <= j < |sent| ==> sent[j].sending.k >= 1
    requires frame in Taken(lib, s, sent[i])
    ensures frame in Wire(lib, s, sent)
    decreases sent
  {
    hide Taken;
    if i > 0 {
      TakenOnWire(lib, s, sent[1..], i - 1, frame);
    }
  }

  /** What arrives was on the wire. */
  lemma LandsFromWire(lib: Library, s: Secret, sent: seq<Sent>, flight: Flight, x: Sent)
    requires Contract(lib) && s.Valid() && Flies(sent, flight) && flight.Lands? && x == sent[flight.call] && x.sending.Valid()
    requires forall i :: 0 <= i < |sent| ==> sent[i].sending.k >= 1
    ensures |x.sending.Coded(s).Shards(lib)| == x.sending.k + x.sending.p
    ensures Frame(lib, x.id, x.sending.Coded(s), flight.index) in Wire(lib, s, sent)
  {
    FrameTaken(lib, s, x, flight.index);
    TakenOnWire(lib, s, sent, flight.call, Frame(lib, x.id, x.sending.Coded(s), flight.index));
    hide Contract, IdealCipher, Sending.Coded, Frame, Wire, Content, Coding.Shards;
  }

  /** While a group is alive, no frame arrives of a packet sent 2^32 packets before or after the group's own: calls says
      which packet a live group is of. */
  predicate Timely(s: Secret, timeout: int, sent: seq<Sent>, ideal: Ideal, calls: map<uint32, nat>, flights: seq<Flight>)
    requires s.timeWindow > 0 && |s.userID| == 4 && AllFly(sent, flights)
    decreases flights
  {
    flights != [] ==>
      var flight := flights[0];
      assert Flies(sent, flight) && forall i :: 0 <= i < |flights[1..]| ==> flights[1..][i] == flights[i + 1];
      && (flight.Lands? && sent[flight.call].id in ideal ==>
            sent[flight.call].id in calls && -GROUPS < flight.call - calls[sent[flight.call].id] < GROUPS)
      && Timely(s, timeout, sent, IdealNext(timeout, ideal, Carried(s, ToHop(sent, flight))).0,
                NextCalls(sent, ideal, calls, flight), flights[1..])
  }

  function NextCalls(sent: seq<Sent>, ideal: Ideal, calls: map<uint32, nat>, flight: Flight): map<uint32, nat>
    requires Flies(sent, flight)
  {
    if flight.Lands? && sent[flight.call].id !in ideal then calls[sent[flight.call].id := flight.call] else calls
  }

  /** The ids of a session that began with this group id. */
  ghost predicate Numbered(start: uint32, sent: seq<Sent>) {
    forall i: nat :: i < |sent| ==> sent[i].id == GroupAfter(start, i + 1)
  }

  ghost predicate Knows(s: Secret, sent: seq<Sent>, ideal: Ideal, calls: map<uint32, nat>)
    requires s.timeWindow > 0 && |s.userID| == 4
  {
    forall id :: id in ideal ==>
      && id in calls && calls[id] < |sent| && sent[calls[id]].id == id
      && ideal[id].packet == sent[calls[id]].sending.Coded(s)
  }

  /** Two packets less than 2^32 apart have the same id only if they are the same. */
  lemma SameCall(start: uint32, sent: seq<Sent>, i: nat, j: nat)
    requires Numbered(start, sent) && i < |sent| && j < |sent| && sent[i].id == sent[j].id && -GROUPS < i - j < GROUPS
    ensures i == j
  {
    hide GroupAfter;
    GroupsRepeat(start, Min(i, j) + 1, Max(i, j) + 1);
  }

  lemma FlightKnown(s: Secret, timeout: int, start: uint32, sent: seq<Sent>, ideal: Ideal, calls: map<uint32, nat>, flight: Flight)
    requires s.Valid() && Numbered(start, sent) && Knows(s, sent, ideal, calls) && Flies(sent, flight)
    requires forall i :: 0 <= i < |sent| ==> sent[i].sending.Valid()
    requires flight.Lands? && sent[flight.call].id in ideal ==>
      sent[flight.call].id in calls && -GROUPS < flight.call - calls[sent[flight.call].id] < GROUPS
    ensures var e := Carried(s, ToHop(sent, flight));
      && Possible(ideal, e)
      && Knows(s, sent, IdealNext(timeout, ideal, e).0, NextCalls(sent, ideal, calls, flight))
  {
    hide IdealCipher, Sending.Coded, Answer;
    if flight.Lands? {
      var id := sent[flight.call].id;
      CodedOne(s, sent[flight.call].sending);
      CodedShape(s, sent[flight.call].sending);
      if id in ideal {
        SameCall(start, sent, flight.call, calls[id]);
      }
    }
  }

  lemma CodedShape(s: Secret, x: Sending)
    requires s.timeWindow > 0 && |s.userID| == 4
    ensures x.Coded(s).k == x.k && x.Coded(s).p == x.p
  {
  }

  /** So the live ids of a timely run are distinct. */
  lemma {:induction false} TimelyPossible(
    s: Secret, timeout: int, start: uint32, sent: seq<Sent>, ideal: Ideal, calls: map<uint32, nat>, flights: seq<Flight>)
    requires s.Valid() && Numbered(start, sent) && Knows(s, sent, ideal, calls)
    requires forall i :: 0 <= i < |sent| ==> sent[i].sending.Valid()
    requires AllFly(sent, flights) && Timely(s, timeout, sent, ideal, calls, flights)
    ensures AllPossible(timeout, ideal, Events(s, Hops(sent, flights)))
    decreases flights
  {
    if flights != [] {
      var flight, rest := flights[0], flights[1..];
      assert Flies(sent, flight) && forall i :: 0 <= i < |rest| ==> rest[i] == flights[i + 1];
      FlightKnown(s, timeout, start, sent, ideal, calls, flight);
      var hops := Hops(sent, flights);
      assert hops[0] == ToHop(sent, flight) && hops[1..] == Hops(sent, rest);
      var events := Events(s, hops);
      assert events[0] == Carried(s, hops[0]) && events[1..] == Events(s, hops[1..]);
      hide IdealCipher, Sending.Coded, Answer, IdealNext, NextCalls, Knows, Numbered, Sending.Valid, Possible, ToHop, Hops;
      TimelyPossible(
        s, timeout, start, sent, IdealNext(timeout, ideal, Carried(s, ToHop(sent, flight))).0, NextCalls(sent, ideal, calls, flight), rest);
    }
  }

  /** In a session of at most 2^32 packets every run is timely. */
  lemma {:induction false} ShortTimely(
    s: Secret, timeout: int, start: uint32, sent: seq<Sent>, ideal: Ideal, calls: map<uint32, nat>, flights: seq<Flight>)
    requires s.Valid() && Numbered(start, sent) && Knows(s, sent, ideal, calls) && |sent| <= GROUPS
    requires forall i :: 0 <= i < |sent| ==> sent[i].sending.Valid()
    requires AllFly(sent, flights)
    ensures Timely(s, timeout, sent, ideal, calls, flights)
    decreases flights
  {
    if flights != [] {
      var flight, rest := flights[0], flights[1..];
      assert Flies(sent, flight) && forall i :: 0 <= i < |rest| ==> rest[i] == flights[i + 1];
      FlightKnown(s, timeout, start, sent, ideal, calls, flight);
      hide IdealCipher, Sending.Coded, Answer, IdealNext, NextCalls, Numbered, Sending.Valid, Possible, ToHop;
      ShortTimely(
        s, timeout, start, sent, IdealNext(timeout, ideal, Carried(s, ToHop(sent, flight))).0, NextCalls(sent, ideal, calls, flight), rest);
    }
  }

  ghost predicate Clocked(flights: seq<Flight>) {
    forall i :: 0 <= i < |flights| && flights[i].Lands? ==> IsWindow(flights[i].clock + 1)
  }

  lemma {:induction false} HopsProper(sent: seq<Sent>, flights: seq<Flight>)
    requires AllFly(sent, flights) && Clocked(flights)
    requires forall i :: 0 <= i < |sent| ==> sent[i].sending.Valid()
    ensures Proper(Hops(sent, flights))
    decreases flights
  {
    if flights != [] {
      var rest := flights[1..];
      assert Flies(sent, flights[0]) && forall i :: 0 <= i < |rest| ==> rest[i] == flights[i + 1];
      var hops := Hops(sent, flights);
      assert hops[0] == ToHop(sent, flights[0]) && hops[1..] == Hops(sent, rest);
      hide Sending.Valid, Hops, IsWindow;
      HopsProper(sent, rest);
    }
  }

  lemma PlannedNumbered(lib: Library, s: Secret, mode: Mode, start: uint32, ops: seq<Op>)
    requires s.timeWindow > 0 && |s.userID| == 4 && mode.Valid()
    ensures Numbered(start, Planned(lib, s, mode, start, ops))
  {
    hide GroupAfter, Planned;
    forall i: nat | i < |Planned(lib, s, mode, start, ops)|
      ensures Planned(lib, s, mode, start, ops)[i].id == GroupAfter(start, i + 1)
    {
      PlannedId(lib, s, mode, start, ops, i);
    }
  }

  /** Whatever packets were sent under the ids of the counter: their frames are lost, duplicated, reordered and interleaved
      with Cleanup, and the receiver dispatches exactly what it should. */
  lemma AllReceived(lib: Library, s: Secret, start: uint32, sent: seq<Sent>, timeout: int, flights: seq<Flight>)
    requires Contract(lib) && s.Valid() && Numbered(start, sent)
    requires forall i :: 0 <= i < |sent| ==> sent[i].sending.Valid()
    requires AllFly(sent, flights) && Clocked(flights) && Timely(s, timeout, sent, map[], map[], flights)
    ensures var hops := Hops(sent, flights);
      && Proper(hops) && AllPossible(timeout, map[], Events(s, hops))
      && var received := ReceivedAll(lib, Events(s, hops));
         HandleAll(s, received, Readings(hops), Outputs(lib, timeout, EMPTY, received))
         == Expected(s, hops, IdealOutputs(timeout, map[], Events(s, hops)))
  {
    HopsProper(sent, flights);
    TimelyPossible(s, timeout, start, sent, map[], map[], flights);
    hide IdealCipher, Timely, Proper, Hops, Numbered, Sending.Valid, AllPossible;
    WholePath(lib, s, timeout, EMPTY, map[], Hops(sent, flights));
  }

  /** From end to end: a session is sent while the parity adapts, its frames are lost, duplicated, reordered and interleaved
      with Cleanup, and the receiver dispatches exactly what it should, provided that no frame of a packet arrives while the
      group of another packet with its id is alive. Nothing is asked of the ids: the sender's counter makes them. */
  lemma EndToEnd(lib: Library, s: Secret, mode: Mode, start: uint32, ops: seq<Op>, timeout: int, flights: seq<Flight>)
    requires Contract(lib) && s.Valid() && mode.Valid() && Fits(mode)
    requires forall i :: 0 <= i < |ops| ==> Postable(ops[i])
    requires AllFly(Planned(lib, s, mode, start, ops), flights) && Clocked(flights)
    requires Timely(s, timeout, Planned(lib, s, mode, start, ops), map[], map[], flights)
    ensures var hops := Hops(Planned(lib, s, mode, start, ops), flights);
      && Proper(hops) && AllPossible(timeout, map[], Events(s, hops))
      && var received := ReceivedAll(lib, Events(s, hops));
         HandleAll(s, received, Readings(hops), Outputs(lib, timeout, EMPTY, received))
         == Expected(s, hops, IdealOutputs(timeout, map[], Events(s, hops)))
  {
    PlannedValid(lib, s, mode, start, ops);
    PlannedNumbered(lib, s, mode, start, ops);
    hide IdealCipher, Timely, Planned, Proper, Hops, Numbered, Sending.Valid, AllPossible;
    AllReceived(lib, s, start, Planned(lib, s, mode, start, ops), timeout, flights);
  }
}
