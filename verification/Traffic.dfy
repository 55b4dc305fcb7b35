/** What the receiver dispatches when anything may arrive: frames of packets, packets sent whole, and arbitrary bytes
    (internal/tunnel/tunnel.go, handleReceived).
 */
module Traffic {
  import opened Basics
  import opened ErasureCode
  import opened Shards
  import opened CollectorSafety
  import opened Delivery
  import opened Envelope
  import opened Isolation
  import opened Tunnel
  import Packets

  // Packets sent whole

  lemma {:induction false} OutputsAt(lib: Library, timeout: int, c: Collector, events: seq<Event>, i: nat)
    requires i < |events|
    ensures Outputs(lib, timeout, c, events)[i] == Next(lib, timeout, Run(lib, timeout, c, events[..i]), events[i]).output
    decreases events
  {
    if i > 0 {
      assert events[..i][1..] == events[1..][..i - 1];
      OutputsAt(lib, timeout, Next(lib, timeout, c, events[0]).after, events[1..], i - 1);
      hide Next;
    }
  }

  lemma {:induction false} HandledAt(s: Secret, events: seq<Event>, readings: seq<nat>, outputs: seq<Output>, i: nat)
    requires s.timeWindow > 0 && |events| == |readings| == |outputs| && i < |events|
    ensures HandleAll(s, events, readings, outputs)[i]
         == if events[i].Arrive? then Handle(s, outputs[i], events[i].data, readings[i]) else None
    decreases events
  {
    if i > 0 {
      HandledAt(s, events[1..], readings[1..], outputs[1..], i - 1);
      hide Handle;
    }
  }

  /** In every run, whatever else arrives: a packet sent whole is dispatched with every field as it was sent exactly when the
      collector refuses its bytes and the clocks agree, unless the collector takes them for a shard that completes a group. */
  lemma WholeDispatched(
    lib: Library, s: Secret, timeout: int, c: Collector, events: seq<Event>, readings: seq<nat>, i: nat,
    packet: Packets.Packet, at: nat, stamped: nat, nonce: Bytes)
    requires s.Valid() && |events| == |readings| && i < |events| && events[i].Arrive?
    requires |nonce| == 12 && IsWindow(at) && IsWindow(readings[i] + 1)
    requires events[i].data == s.Seal(packet, at, stamped, nonce)
    ensures var dispatched := HandleAll(s, events, readings, Outputs(lib, timeout, c, events))[i];
      var output := OnShard(lib, Run(lib, timeout, c, events[..i]), events[i].data, events[i].now).output;
      && (output.Err? ==> dispatched == if Near(at, readings[i], s.timeWindow) then Some(Arrived(s, packet, stamped)) else None)
      && (output == Ok(None) ==> dispatched == None)
  {
    OutputsAt(lib, timeout, c, events, i);
    HandledAt(s, events, readings, Outputs(lib, timeout, c, events), i);
    HandleWhole(s, Outputs(lib, timeout, c, events)[i], packet, at, stamped, nonce, readings[i]);
    hide IdealCipher, Secret.Seal, Arrived, Near, OnShard, Handle;
  }

  /** When the collector has no group under the user id: it refuses a packet sent whole exactly if the two bytes of its stamp
      and the first byte of its nonce, read as index, total and parity, make no shard. What it keeps as a shard that is not
      the only data shard is lost. */
  lemma WholeRefused(lib: Library, s: Secret, c: Collector, packet: Packets.Packet, at: nat, stamped: nat, nonce: Bytes, now: int)
    requires Contract(lib) && s.Valid() && |nonce| == 12 && IsWindow(at) && GetUint32(s.userID) !in c.groups
    ensures var output := OnShard(lib, c, s.Seal(packet, at, stamped, nonce), now).output;
      var index, total, parity := stamped % 0x1_0000 / 0x100, stamped % 0x100, nonce[0] as int;
      && (output.Err? <==> index >= total || total < parity + 1 || (total == 1 && parity == 0))
      && (output.Ok? && total != parity + 1 ==> output == Ok(None))
  {
    var data := s.Seal(packet, at, stamped, nonce);
    WholeHeader(s, packet, at, stamped, nonce);
    RefusedExactly(lib, c, data, now);
    hide IdealCipher, Contract, OnShard, ParseShardHeader, Secret.Seal;
  }

  lemma WholeHeader(s: Secret, packet: Packets.Packet, at: nat, stamped: nat, nonce: Bytes)
    requires s.Valid() && |nonce| == 12 && IsWindow(at)
    ensures var data := s.Seal(packet, at, stamped, nonce);
      && |data| >= 14 && ParseShardHeader(data).Ok?
      && var h := ParseShardHeader(data).value;
         && h.groupID == GetUint32(s.userID) && h.index as int == stamped % 0x1_0000 / 0x100
         && h.total as int == stamped % 0x100 && h.parity == nonce[0]
  {
    hide IdealCipher, Secret.Seal, ParseShardHeader, GetUint32, Value, ShardHeader.DataShards, Packets.Packet.Serialize;
    var data := s.Seal(packet, at, stamped, nonce);
    PeerOpens(s, packet, at, stamped, nonce);
    ReadAsShard(data, stamped % 0x1_0000, nonce);
    assert stamped % 0x1_0000 % 0x100 == stamped % 0x100;
  }

  /** The first fourteen bytes of a packet sent whole, read as the header of a shard. */
  lemma ReadAsShard(data: Bytes, stamp: nat, nonce: Bytes)
    requires |data| >= 18 && |nonce| == 12 && data[6..18] == nonce && Value(data[4..6]) == stamp
    ensures ParseShardHeader(data).Ok?
    ensures var h := ParseShardHeader(data).value;
      && h.groupID == GetUint32(data[..4]) && h.index as int == stamp / 0x100 && h.total as int == stamp % 0x100
      && h.parity == nonce[0]
  {
    Value2(data[4..6]);
    assert data[6..18][0] == data[6] && data[0..4] == data[..4];
    StampBytes(stamp, data[4], data[5]);
    hide GetUint32, GetUint16, Value;
  }

  lemma StampBytes(stamp: nat, high: byte, low: byte)
    requires stamp == high as int * 0x100 + low as int
    ensures high as int == stamp / 0x100 && low as int == stamp % 0x100
  {
  }

  // Frames among arbitrary bytes

  /** The entries that go with the events concerning a group. */
  function Kept<T>(events: seq<Event>, entries: seq<T>, id: uint32): (kept: seq<T>)
    requires |events| == |entries|
    ensures |kept| == |Concerning(events, id)|
  {
    if events == [] then []
    else (if Concerns(events[0], id) then [entries[0]] else []) + Kept(events[1..], entries[1..], id)
  }

  /** At the events that concern a group the collector returns what it returns when there are no others. */
  lemma {:induction false} OutputsKept(lib: Library, timeout: int, a: Collector, b: Collector, events: seq<Event>, id: uint32)
    requires SameGroup(a, b, id)
    ensures Kept(events, Outputs(lib, timeout, a, events), id) == Outputs(lib, timeout, b, Concerning(events, id))
    decreases events
  {
    if events != [] {
      var e, rest := events[0], Concerning(events[1..], id);
      var a1 := Next(lib, timeout, a, e).after;
      if Concerns(e, id) {
        OwnStep(lib, timeout, a, b, e, id);
        assert ([e] + rest)[0] == e && ([e] + rest)[1..] == rest;
        OutputsKept(lib, timeout, a1, Next(lib, timeout, b, e).after, events[1..], id);
      } else {
        OtherStep(lib, timeout, a, e, id);
        assert [] + rest == rest;
        OutputsKept(lib, timeout, a1, b, events[1..], id);
      }
      hide Next, SameGroup, Names;
    }
  }

  /** The packets dispatched at the arrivals under one id. */
  function DispatchedUnder(events: seq<Event>, packets: seq<Option<Packets.Packet>>, id: uint32): seq<Packets.Packet>
    requires |events| == |packets|
  {
    if events == [] then []
    else
      (if events[0].Arrive? && Names(events[0].data, id) && packets[0].Some? then [packets[0].value] else [])
      + DispatchedUnder(events[1..], packets[1..], id)
  }

  lemma {:induction false} DispatchKept(s: Secret, events: seq<Event>, readings: seq<nat>, outputs: seq<Output>, id: uint32)
    requires s.timeWindow > 0 && |events| == |readings| == |outputs|
    ensures DispatchedUnder(events, HandleAll(s, events, readings, outputs), id)
         == DispatchedUnder(Concerning(events, id),
                            HandleAll(s, Concerning(events, id), Kept(events, readings, id), Kept(events, outputs, id)), id)
    decreases events
  {
    if events != [] {
      var e, rest := events[0], Concerning(events[1..], id);
      DispatchKept(s, events[1..], readings[1..], outputs[1..], id);
      hide Handle, Names;
      assert HandleAll(s, events, readings, outputs)[1..] == HandleAll(s, events[1..], readings[1..], outputs[1..]);
      if Concerns(e, id) {
        assert ([e] + rest)[0] == e && ([e] + rest)[1..] == rest;
        var r, o := Kept(events[1..], readings[1..], id), Kept(events[1..], outputs[1..], id);
        assert ([readings[0]] + r)[1..] == r && ([outputs[0]] + o)[1..] == o;
        assert HandleAll(s, [e] + rest, [readings[0]] + r, [outputs[0]] + o)[1..] == HandleAll(s, rest, r, o);
      } else {
        var packets := DispatchedUnder(events[1..], HandleAll(s, events[1..], readings[1..], outputs[1..]), id);
        assert [] + rest == rest && [] + packets == packets;
        assert Concerning(events, id) == rest;
        assert Kept(events, readings, id) == Kept(events[1..], readings[1..], id);
        assert Kept(events, outputs, id) == Kept(events[1..], outputs[1..], id);
        assert DispatchedUnder(events, HandleAll(s, events, readings, outputs), id) == packets;
      }
    }
  }

  lemma {:induction false} DispatchedFramed(lib: Library, s: Secret, hops: seq<Hop>, packets: seq<Option<Packets.Packet>>, id: uint32)
    requires Contract(lib) && s.Valid() && |hops| == |packets| && AllSendable(Events(s, hops))
    ensures DispatchedUnder(ReceivedAll(lib, Events(s, hops)), packets, id) == DispatchedFor(hops, packets, id)
    decreases hops
  {
    if hops != [] {
      var events := Events(s, hops);
      assert events[1..] == Events(s, hops[1..]);
      DispatchedFramed(lib, s, hops[1..], packets[1..], id);
      assert ReceivedAll(lib, events)[1..] == ReceivedAll(lib, events[1..]);
      var e := events[0];
      assert e == Carried(s, hops[0]);
      if e.Deliver? {
        ShardsShape(lib, e.packet);
        FrameParses(lib, e.id, e.packet, e.index);
        assert e.id == hops[0].id && Names(Received(lib, e).data, id) == (e.id == id);
      }
      hide Contract, IdealCipher, Frame, ParseShardHeader, Coding.Shards, Sending.Coded, Content;
    }
  }

  /** What is dispatched under an id is what is dispatched when nothing else arrives. */
  lemma DispatchIsolated(
    lib: Library, s: Secret, timeout: int, earlier: seq<Event>, events: seq<Event>, readings: seq<nat>, id: uint32)
    requires s.timeWindow > 0 && |events| == |readings|
    ensures var c, c' := Run(lib, timeout, EMPTY, earlier), Run(lib, timeout, EMPTY, Concerning(earlier, id));
      var own := Concerning(events, id);
      DispatchedUnder(events, HandleAll(s, events, readings, Outputs(lib, timeout, c, events)), id)
      == DispatchedUnder(own, HandleAll(s, own, Kept(events, readings, id), Outputs(lib, timeout, c', own)), id)
  {
    hide Next, Handle, Names, SameGroup;
    var c, c' := Run(lib, timeout, EMPTY, earlier), Run(lib, timeout, EMPTY, Concerning(earlier, id));
    Alike(EMPTY, id);
    RunIsolates(lib, timeout, EMPTY, EMPTY, earlier, id);
    OutputsKept(lib, timeout, c, c', events, id);
    DispatchKept(s, events, readings, Outputs(lib, timeout, c, events), id);
  }

  lemma Alike(c: Collector, id: uint32)
    ensures SameGroup(c, c, id)
  {
  }

  lemma DispatchedAlone(
    lib: Library, s: Secret, timeout: int, before: seq<NetEvent>, own: seq<Hop>, id: uint32, x: Sending)
    requires Contract(lib) && s.Valid() && x.Valid() && Proper(own) && AlwaysNear(s, x, own, id)
    requires Lifetime(timeout, before, Events(s, own), id)
    ensures var received := ReceivedAll(lib, Events(s, own));
      var outputs := Outputs(lib, timeout, Run(lib, timeout, EMPTY, ReceivedAll(lib, before)), received);
      DispatchedUnder(received, HandleAll(s, received, Readings(own), outputs), id)
      == if |Indices(Events(s, own), id)| >= x.k then [Arrived(s, x.packet, x.stamped)] else []
  {
    hide Contract, IdealCipher, Next, Arrived, Near, Proper, Indices, AllPossible, Undisturbed, IdealRun, Sending.Valid, Sending.Coded;
    var received := ReceivedAll(lib, Events(s, own));
    var outputs := Outputs(lib, timeout, Run(lib, timeout, EMPTY, ReceivedAll(lib, before)), received);
    DispatchedFramed(lib, s, own, HandleAll(s, received, Readings(own), outputs), id);
    PacketArrivesExactlyOnce(lib, s, timeout, before, own, id, x);
  }

  /** In every lifetime of an id, whatever bytes arrive under other ids or under none, packets sent whole among them: a packet
      whose clock agrees with the receiver's whenever one of its shards arrives is dispatched exactly once if at least k
      distinct shards arrive, and not at all otherwise. */
  lemma DispatchedAmidNoise(
    lib: Library, s: Secret, timeout: int, earlier: seq<Event>, events: seq<Event>, readings: seq<nat>, id: uint32, x: Sending,
    before: seq<NetEvent>, own: seq<Hop>)
    requires Contract(lib) && s.Valid() && x.Valid() && Proper(own) && AlwaysNear(s, x, own, id)
    requires Lifetime(timeout, before, Events(s, own), id) && |events| == |readings|
    requires Concerning(earlier, id) == ReceivedAll(lib, before)
    requires Concerning(events, id) == ReceivedAll(lib, Events(s, own)) && Kept(events, readings, id) == Readings(own)
    ensures var c := Run(lib, timeout, EMPTY, earlier);
      DispatchedUnder(events, HandleAll(s, events, readings, Outputs(lib, timeout, c, events)), id)
      == if |Indices(Events(s, own), id)| >= x.k then [Arrived(s, x.packet, x.stamped)] else []
  {
    assert s.timeWindow > 0;
    hide *;
    DispatchedAlone(lib, s, timeout, before, own, id, x);
    DispatchIsolated(lib, s, timeout, earlier, events, readings, id);
  }
}
