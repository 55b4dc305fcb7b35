/** The whole path of a packet: encrypted, split into shards, sent, collected and decrypted
    (internal/tunnel/tunnel.go, sendPacket and handleReceived). */
module Tunnel {
  import opened Basics
  import opened ErasureCode
  import opened Fec
  import opened Shards
  import opened CollectorSafety
  import opened Delivery
  import opened Encoding
  import Adaptive
  import Packets
  import opened Envelope

  /** Decryption as handleReceived uses it: a packet that does not open is dropped. */
  function Opened(s: Secret, data: Bytes, now: nat): Option<Packets.Packet>
    requires s.timeWindow > 0
  {
    match s.Open(data, now)
    case Ok(p) => Some(p)
    case Err(_) => None
  }

  /** What becomes of received bytes: what the collector refuses is tried as an unsharded packet. The clock is read anew
      for decryption. */
  function Handle(s: Secret, output: Output, data: Bytes, clock: nat): Option<Packets.Packet>
    requires s.timeWindow > 0
  {
    match output
    case Err(_) => Opened(s, data, clock)
    case Ok(None) => None
    case Ok(Some(whole)) => Opened(s, whole, clock)
  }

  // Packets on their way

  /** A packet, the clock readings of its encryption, and how it was cut into shards. */
  datatype Sending = Sending(packet: Packets.Packet, at: nat, stamped: nat, nonce: Bytes, k: nat, p: nat, timestamp: uint32) {
    ghost predicate Valid() {
      && Legal(k, p) && k + p <= 255
      && |nonce| == NONCE_SIZE && IsWindow(at)
      && |packet.payload| <= 65535 - (Packets.HEADER_SIZE + NONCE_SIZE + Packets.BODY_SIZE + TAG_SIZE)
    }

    function Coded(s: Secret): Coding
      requires s.timeWindow > 0 && |s.userID| == 4
    {
      Coding(k, p, s.Seal(packet, at, stamped, nonce), timestamp)
    }
  }

  /** One arrival of one shard of a packet sent under some group id, or one run of Cleanup. Of the two clock readings at an
      arrival the collector makes the first, and decryption the second, in seconds. */
  datatype Hop = Arrives(id: uint32, sending: Sending, index: byte, now: int, clock: nat) | Cleans(now: int)

  function Carried(s: Secret, hop: Hop): NetEvent
    requires s.timeWindow > 0 && |s.userID| == 4
  {
    match hop
    case Arrives(id, sending, index, now, _) => Deliver(id, sending.Coded(s), index, now)
    case Cleans(now) => Clean(now)
  }

  function Events(s: Secret, hops: seq<Hop>): (events: seq<NetEvent>)
    requires s.timeWindow > 0 && |s.userID| == 4
    ensures |events| == |hops|
  {
    if hops == [] then [] else [Carried(s, hops[0])] + Events(s, hops[1..])
  }

  lemma CodedOne(s: Secret, x: Sending)
    requires s.Valid() && x.Valid()
    ensures x.Coded(s).Valid() && Content(x.Coded(s)) == s.Seal(x.packet, x.at, x.stamped, x.nonce)
  {
    SealShape(s, x.packet, Window(x.at, s.timeWindow), x.stamped, x.nonce);
    hide IdealCipher;
    var data := s.Seal(x.packet, x.at, x.stamped, x.nonce);
    assert data[..|data|] == data;
  }

  /** The readings of the clock for decryption. */
  function Readings(hops: seq<Hop>): (readings: seq<nat>)
    ensures |readings| == |hops|
  {
    if hops == [] then [] else [if hops[0].Arrives? then hops[0].clock else 0] + Readings(hops[1..])
  }

  /** What the run carries can have been sent, and the receiver's clock readings have windows of 64 bits. */
  ghost predicate Proper(hops: seq<Hop>) {
    hops != [] ==>
      && (hops[0].Arrives? ==> hops[0].sending.Valid() && IsWindow(hops[0].clock + 1))
      && Proper(hops[1..])
  }

  /** The packets a run of the network makes the receiver dispatch, one entry per event. */
  function HandleAll(s: Secret, events: seq<Event>, readings: seq<nat>, outputs: seq<Output>): (packets: seq<Option<Packets.Packet>>)
    requires s.timeWindow > 0 && |events| == |readings| == |outputs|
    ensures |packets| == |events|
    decreases events
  {
    if events == [] then []
    else
      [match events[0]
       case Arrive(data, _) => Handle(s, outputs[0], data, readings[0])
       case Sweep(_) => None]
      + HandleAll(s, events[1..], readings[1..], outputs[1..])
  }

  /** What should be dispatched: each packet when the ideal receiver completes it, if the clocks agree by then. */
  function Expected(s: Secret, hops: seq<Hop>, outputs: seq<Output>): (packets: seq<Option<Packets.Packet>>)
    requires s.timeWindow > 0 && |s.userID| == 4 && |hops| == |outputs| && Proper(hops)
    ensures |packets| == |hops|
    decreases hops
  {
    if hops == [] then []
    else
      [if hops[0].Arrives? && outputs[0].Ok? && outputs[0].value.Some? && Near(hops[0].sending.at, hops[0].clock, s.timeWindow)
       then Some(Arrived(s, hops[0].sending.packet, hops[0].sending.stamped)) else None]
      + Expected(s, hops[1..], outputs[1..])
  }

  lemma HandleOne(s: Secret, x: Sending, output: Output, data: Bytes, clock: nat)
    requires s.Valid() && x.Valid() && IsWindow(clock + 1)
    requires output == Ok(None) || output == Ok(Some(s.Seal(x.packet, x.at, x.stamped, x.nonce)))
    ensures Handle(s, output, data, clock)
         == if output.value.Some? && Near(x.at, clock, s.timeWindow) then Some(Arrived(s, x.packet, x.stamped)) else None
  {
    OpensExactly(s, x.packet, x.at, x.stamped, clock, x.nonce);
    hide IdealCipher;
  }

  /** A packet sent whole, without shards, whatever the collector says of its bytes: what it refuses is opened. */
  lemma HandleWhole(s: Secret, output: Output, packet: Packets.Packet, at: nat, stamped: nat, nonce: Bytes, clock: nat)
    requires s.Valid() && |nonce| == NONCE_SIZE && IsWindow(at) && IsWindow(clock + 1)
    ensures output.Err? ==>
      Handle(s, output, s.Seal(packet, at, stamped, nonce), clock)
      == if Near(at, clock, s.timeWindow) then Some(Arrived(s, packet, stamped)) else None
    ensures output == Ok(None) ==> Handle(s, output, s.Seal(packet, at, stamped, nonce), clock) == None
  {
    OpensExactly(s, packet, at, stamped, clock, nonce);
    hide IdealCipher;
  }

  lemma IdealOutput(timeout: int, ideal: Ideal, e: NetEvent)
    requires Possible(ideal, e) && (e.Deliver? ==> e.packet.k + e.packet.p <= 255)
    ensures var output := IdealNext(timeout, ideal, e).1;
      output == Ok(None) || (e.Deliver? && output == Ok(Some(Content(e.packet))))
  {}

  lemma {:induction false} HandledAsExpected(lib: Library, s: Secret, timeout: int, ideal: Ideal, hops: seq<Hop>)
    requires Contract(lib) && s.Valid() && Proper(hops) && AllPossible(timeout, ideal, Events(s, hops))
    ensures var outputs := IdealOutputs(timeout, ideal, Events(s, hops));
      HandleAll(s, ReceivedAll(lib, Events(s, hops)), Readings(hops), outputs) == Expected(s, hops, outputs)
    decreases hops
  {
    hide Contract, IdealCipher, IdealNext, Arrived, Near, Frame, Possible;
    if hops != [] {
      var e := Carried(s, hops[0]);
      var (ideal', output) := IdealNext(timeout, ideal, e);
      assert Events(s, hops)[1..] == Events(s, hops[1..]);
      HandledAsExpected(lib, s, timeout, ideal', hops[1..]);
      if e.Deliver? {
        CodedOne(s, hops[0].sending);
        IdealOutput(timeout, ideal, e);
        HandleOne(s, hops[0].sending, output, Received(lib, e).data, hops[0].clock);
      }
    }
  }

  /** Over every run of the network, what the receiver dispatches is what it should: a packet is dispatched on the
      arrival of the k-th distinct shard of its group, with every field as it was sent and whatever parity it was
      coded with, provided the clocks are in the same or neighbouring windows; nothing else is ever dispatched. An id may
      stand for another packet once its group is gone. */
  lemma WholePath(lib: Library, s: Secret, timeout: int, c: Collector, ideal: Ideal, hops: seq<Hop>)
    requires Contract(lib) && s.Valid() && Refines(lib, c.groups, ideal)
    requires Proper(hops) && AllPossible(timeout, ideal, Events(s, hops))
    ensures var received := ReceivedAll(lib, Events(s, hops));
      && HandleAll(s, received, Readings(hops), Outputs(lib, timeout, c, received))
         == Expected(s, hops, IdealOutputs(timeout, ideal, Events(s, hops)))
      && Refines(lib, Run(lib, timeout, c, received).groups, IdealRun(timeout, ideal, Events(s, hops)))
  {
    RunRefines(lib, timeout, c, ideal, Events(s, hops));
    HandledAsExpected(lib, s, timeout, ideal, hops);
  }

  /** The packets dispatched at the arrivals of shards of one group. */
  function DispatchedFor(hops: seq<Hop>, packets: seq<Option<Packets.Packet>>, id: uint32): seq<Packets.Packet>
    requires |hops| == |packets|
  {
    if hops == [] then []
    else
      (if hops[0].Arrives? && hops[0].id == id && packets[0].Some? then [packets[0].value] else [])
      + DispatchedFor(hops[1..], packets[1..], id)
  }

  /** Every arrival under the id is of this packet, at a time when the clocks agree. */
  ghost predicate AlwaysNear(s: Secret, x: Sending, hops: seq<Hop>, id: uint32)
    requires s.timeWindow > 0 && Proper(hops)
  {
    hops != [] ==>
      && (hops[0].Arrives? && hops[0].id == id ==> hops[0].sending == x && Near(x.at, hops[0].clock, s.timeWindow))
      && AlwaysNear(s, x, hops[1..], id)
  }

  lemma {:induction false} ExpectedFor(s: Secret, x: Sending, timeout: int, ideal: Ideal, hops: seq<Hop>, id: uint32)
    requires s.Valid() && Proper(hops) && AlwaysNear(s, x, hops, id)
    ensures var outputs := IdealOutputs(timeout, ideal, Events(s, hops));
      |DispatchedFor(hops, Expected(s, hops, outputs), id)| == |Returned(Events(s, hops), outputs, id)|
      && forall i :: 0 <= i < |Returned(Events(s, hops), outputs, id)| ==>
           DispatchedFor(hops, Expected(s, hops, outputs), id)[i] == Arrived(s, x.packet, x.stamped)
    decreases hops
  {
    hide IdealCipher, IdealNext, Arrived, Near;
    if hops != [] {
      assert Events(s, hops)[1..] == Events(s, hops[1..]);
      ExpectedFor(s, x, timeout, IdealNext(timeout, ideal, Carried(s, hops[0])).0, hops[1..], id);
    }
  }

  lemma {:induction false} FirstArrival(s: Secret, x: Sending, hops: seq<Hop>, id: uint32)
    requires s.Valid() && Proper(hops) && AlwaysNear(s, x, hops, id)
    ensures PacketOf(map[], Events(s, hops), id) == if Indices(Events(s, hops), id) == {} then None else Some(x.Coded(s))
    decreases hops
  {
    hide IdealCipher;
    if hops != [] {
      var events := Events(s, hops);
      assert events[1..] == Events(s, hops[1..]);
      IndicesFirst(events, id);
      FirstArrival(s, x, hops[1..], id);
    }
  }

  /** In every lifetime of an id, a packet whose clock agrees with the receiver's whenever one of its shards arrives is
      dispatched exactly once if at least k distinct shards arrive, and not at all otherwise. */
  lemma PacketArrivesExactlyOnce(
    lib: Library, s: Secret, timeout: int, earlier: seq<NetEvent>, hops: seq<Hop>, id: uint32, x: Sending)
    requires Contract(lib) && s.Valid() && x.Valid() && Proper(hops) && AlwaysNear(s, x, hops, id)
    requires Lifetime(timeout, earlier, Events(s, hops), id)
    ensures var received := ReceivedAll(lib, Events(s, hops));
      var c := Run(lib, timeout, EMPTY, ReceivedAll(lib, earlier));
      DispatchedFor(hops, HandleAll(s, received, Readings(hops), Outputs(lib, timeout, c, received)), id)
      == if |Indices(Events(s, hops), id)| >= x.k then [Arrived(s, x.packet, x.stamped)] else []
  {
    var events := Events(s, hops);
    var ideal := IdealRun(timeout, map[], earlier);
    RunRefines(lib, timeout, EMPTY, map[], earlier);
    WholePath(lib, s, timeout, Run(lib, timeout, EMPTY, ReceivedAll(lib, earlier)), ideal, hops);
    ReturnedIdeally(lib, timeout, earlier, events, id);
    FirstArrival(s, x, hops, id);
    if Indices(events, id) == {} {
      NeverInvented(lib, timeout, earlier, events, id);
    } else {
      RecoveredExactlyOnce(lib, timeout, earlier, events, id, x.Coded(s));
    }
    ExpectedFor(s, x, timeout, ideal, hops, id);
    hide Contract, IdealCipher, Arrived, Near, Proper, Expected, DispatchedFor, Indices, Content, AllPossible, Undisturbed, PacketOf;
  }

  // The methods

  class Tunnel {
    const builder: PacketBuilder
    const fecEncoder: FECEncoder?
    const fecCollector: ShardCollector?
    /** Everything handed to the transport so far. */
    var wire: seq<Bytes>

    constructor (builder: PacketBuilder, fecEncoder: FECEncoder?, fecCollector: ShardCollector?)
      ensures this.builder == builder && this.fecEncoder == fecEncoder && this.fecCollector == fecCollector && wire == []
    {
      this.builder, this.fecEncoder, this.fecCollector, this.wire := builder, fecEncoder, fecCollector, [];
    }

    /** Sends an encrypted packet, in shards if error correction is on. The transport takes at most the given number
        of messages before it fails; what was sent until then stays sent. */
    method SendPacket(data: Bytes, timestamp: uint32, accepted: nat) returns (ok: bool)
      requires fecEncoder != null ==> fecEncoder.Valid()
      modifies `wire, fecEncoder, if fecEncoder != null && fecEncoder.adaptiveFEC != null then {fecEncoder.adaptiveFEC.estimator} else {}
      ensures fecEncoder == null ==> wire == old(wire) + [data][..Min(accepted, 1)] && ok == (accepted >= 1)
      ensures fecEncoder != null ==> fecEncoder.Valid() && fecEncoder.groupID == NextGroup(old(fecEncoder.groupID))
      ensures fecEncoder != null && (data == [] || !fecEncoder.Ready()) ==> wire == old(wire) && !ok
      ensures fecEncoder != null && data != [] && fecEncoder.Ready() ==>
        var packet := fecEncoder.Coded(data, timestamp);
        if Encodes(fecEncoder.lib, packet) then
          && wire == old(wire) + Frames(fecEncoder.lib, fecEncoder.groupID, packet)[..Min(accepted, |packet.Shards(fecEncoder.lib)|)]
          && ok == (accepted >= |packet.Shards(fecEncoder.lib)|)
        else wire == old(wire) && !ok
      ensures fecEncoder != null && fecEncoder.adaptiveFEC != null ==>
        fecEncoder.adaptiveFEC.estimator.State() ==
          if fecEncoder.Adapts() && data != [] && Encodes(fecEncoder.lib, fecEncoder.Coded(data, timestamp))
          then Adaptive.Observe(old(fecEncoder.adaptiveFEC.estimator.State()),
                                Adaptive.Sent(fecEncoder.DataShards() + fecEncoder.ParityShards()))
          else old(fecEncoder.adaptiveFEC.estimator.State())
    {
      hide Contract;
      if fecEncoder != null {
        var r := fecEncoder.Encode(data, timestamp);
        if r.Err? {
          return false;
        }
        ok := SendAll(r.value, accepted);
      } else {
        ok := SendAll([data], accepted);
      }
    }

    method SendAll(messages: seq<Bytes>, accepted: nat) returns (ok: bool)
      modifies `wire
      ensures wire == old(wire) + messages[..Min(accepted, |messages|)]
      ensures ok == (accepted >= |messages|)
    {
      for i := 0 to |messages|
        invariant i <= accepted
        invariant wire == old(wire) + messages[..i]
      {
        if i == accepted {
          return false;
        }
        wire := wire + [messages[i]];
      }
      return true;
    }

    /** Collects and decrypts what was received, up to the point where the packet is dispatched by its type. The collector
        and decryption each read the clock, and a window may turn in between. */
    method HandleReceived(data: Bytes, now: int, clock: nat) returns (packet: Option<Packets.Packet>)
      requires builder.Valid()
      requires fecCollector != null ==> fecCollector.Valid() && builder !in fecCollector.Objects()
      modifies builder`aeadCache, fecCollector, if fecCollector != null then fecCollector.Objects() else {}
      ensures builder.Valid()
      ensures fecCollector == null ==> packet == Opened(builder.secret, data, clock)
      ensures fecCollector != null ==>
        var step := OnShard(fecCollector.lib, old(fecCollector.State()), data, now);
        && fecCollector.Valid() && fecCollector.State() == step.after
        && packet == Handle(builder.secret, step.output, data, clock)
      ensures forall sent, at: nat, stamped: nat, nonce ::
        data == builder.secret.Seal(sent, at, stamped, nonce) && |nonce| == 12 && IsWindow(at) && IsWindow(clock + 1)
        && (fecCollector == null || OnShard(fecCollector.lib, old(fecCollector.State()), data, now).output.Err?) ==>
          packet == if Near(at, clock, builder.secret.timeWindow) then Some(Arrived(builder.secret, sent, stamped)) else None
    {
      ghost var output := if fecCollector == null then Err(ShardTooShort) else OnShard(fecCollector.lib, fecCollector.State(), data, now).output;
      ghost var expected := Handle(builder.secret, output, data, clock);
      forall sent, at: nat, stamped: nat, nonce |
        data == builder.secret.Seal(sent, at, stamped, nonce) && |nonce| == 12 && IsWindow(at) && IsWindow(clock + 1) && output.Err?
        ensures expected == if Near(at, clock, builder.secret.timeWindow) then Some(Arrived(builder.secret, sent, stamped)) else None
      {
        HandleWhole(builder.secret, output, sent, at, stamped, nonce, clock);
      }
      hide IdealCipher, Arrived, Near, OnShard, Secret.Seal, SealedByPeer, ComesOut;
      var processData := data;
      if fecCollector != null {
        var r := fecCollector.AddShard(data, now);
        if r.Ok? {
          if r.value.None? {
            return None;
          }
          processData := r.value.value;
        }
      }
      var decrypted := builder.DecryptPacket(processData, clock);
      return if decrypted.Ok? then Some(decrypted.value) else None;
    }
  }
}
