/** What the collector does for one group id does not depend on what arrives under any other: arbitrary bytes among the
    frames of a packet change nothing for that packet (internal/fec/shards.go).
 */
module Isolation {
  import opened Basics
  import opened ErasureCode
  import opened Fec
  import opened Shards
  import opened CollectorSafety
  import opened Delivery

  /** Bytes whose header names this group. */
  predicate Names(data: Bytes, id: uint32) {
    ParseShardHeader(data).Ok? && ParseShardHeader(data).value.groupID == id
  }

  predicate Concerns(e: Event, id: uint32) {
    e.Sweep? || Names(e.data, id)
  }

  /** The events of a run that concern a group id. */
  function Concerning(events: seq<Event>, id: uint32): seq<Event> {
    if events == [] then []
    else (if Concerns(events[0], id) then [events[0]] else []) + Concerning(events[1..], id)
  }

  predicate SameGroup(a: Collector, b: Collector, id: uint32) {
    (id in a.groups <==> id in b.groups) && (id in a.groups ==> a.groups[id] == b.groups[id])
  }

  /** What is returned at the arrivals under one id. */
  function Answers(events: seq<Event>, outputs: seq<Output>, id: uint32): seq<Bytes>
    requires |events| == |outputs|
  {
    if events == [] then []
    else
      (if events[0].Arrive? && Names(events[0].data, id) && outputs[0].Ok? && outputs[0].value.Some? then [outputs[0].value.value] else [])
      + Answers(events[1..], outputs[1..], id)
  }

  /** A step for another group leaves this one alone. */
  lemma OtherStep(lib: Library, timeout: int, c: Collector, e: Event, id: uint32)
    requires !Concerns(e, id)
    ensures SameGroup(Next(lib, timeout, c, e).after, c, id)
  {
    hide Attempt, Store, GetUint32, GetUint16, NewGroup;
  }

  /** A step that concerns this group does the same to it, and for an arrival returns the same, whatever else there is. */
  lemma OwnStep(lib: Library, timeout: int, a: Collector, b: Collector, e: Event, id: uint32)
    requires Concerns(e, id) && SameGroup(a, b, id)
    ensures SameGroup(Next(lib, timeout, a, e).after, Next(lib, timeout, b, e).after, id)
    ensures Next(lib, timeout, a, e).output == Next(lib, timeout, b, e).output
  {
    hide Attempt, Store, GetUint32, GetUint16, NewGroup;
  }

  /** A run and the part of it that concerns a group agree on that group. */
  lemma {:induction false} RunIsolates(lib: Library, timeout: int, a: Collector, b: Collector, events: seq<Event>, id: uint32)
    requires SameGroup(a, b, id)
    ensures SameGroup(Run(lib, timeout, a, events), Run(lib, timeout, b, Concerning(events, id)), id)
    ensures Answers(events, Outputs(lib, timeout, a, events), id)
         == Answers(Concerning(events, id), Outputs(lib, timeout, b, Concerning(events, id)), id)
    decreases events
  {
    if events != [] {
      var e, rest := events[0], Concerning(events[1..], id);
      var a1 := Next(lib, timeout, a, e).after;
      if Concerns(e, id) {
        OwnStep(lib, timeout, a, b, e, id);
        assert ([e] + rest)[0] == e && ([e] + rest)[1..] == rest;
        RunIsolates(lib, timeout, a1, Next(lib, timeout, b, e).after, events[1..], id);
      } else {
        OtherStep(lib, timeout, a, e, id);
        assert [] + rest == rest;
        RunIsolates(lib, timeout, a1, b, events[1..], id);
      }
      hide Next, SameGroup, Names;
    }
  }

  /** The answers to framed shards are what the network's events return. */
  lemma {:induction false} AnswersReturned(lib: Library, events: seq<NetEvent>, outputs: seq<Output>, id: uint32)
    requires Contract(lib) && AllSendable(events) && |events| == |outputs|
    ensures Answers(ReceivedAll(lib, events), outputs, id) == Returned(events, outputs, id)
    decreases events
  {
    if events != [] {
      var e := events[0];
      AnswersReturned(lib, events[1..], outputs[1..], id);
      assert ReceivedAll(lib, events)[1..] == ReceivedAll(lib, events[1..]);
      if e.Deliver? {
        ShardsShape(lib, e.packet);
        FrameParses(lib, e.id, e.packet, e.index);
      }
      hide Contract, Frame, ParseShardHeader, Coding.Shards, Content;
    }
  }

  /** In every lifetime of every id, whatever bytes arrive under other ids or under none: the packet is returned exactly once
      when at least k of its shards arrive, and never otherwise. */
  lemma RecoveredAmidNoise(
    lib: Library, timeout: int, earlier: seq<Event>, events: seq<Event>, id: uint32, packet: Coding,
    before: seq<NetEvent>, own: seq<NetEvent>)
    requires Contract(lib) && Lifetime(timeout, before, own, id)
    requires Concerning(earlier, id) == ReceivedAll(lib, before) && Concerning(events, id) == ReceivedAll(lib, own)
    requires PacketOf(map[], own, id) == Some(packet) && packet.k + packet.p <= 255
    ensures Answers(events, Outputs(lib, timeout, Run(lib, timeout, EMPTY, earlier), events), id)
         == if |Indices(own, id)| >= packet.k then [Content(packet)] else []
  {
    var c, c' := Run(lib, timeout, EMPTY, earlier), Run(lib, timeout, EMPTY, ReceivedAll(lib, before));
    RunIsolates(lib, timeout, EMPTY, EMPTY, earlier, id);
    RunIsolates(lib, timeout, c, c', events, id);
    AnswersReturned(lib, own, Outputs(lib, timeout, c', ReceivedAll(lib, own)), id);
    RecoveredExactlyOnce(lib, timeout, before, own, id, packet);
    hide Contract, Answers, Returned, Outputs, Run, Indices, Content, Concerning, AllPossible, Undisturbed;
  }

  /** Arbitrary bytes: whatever AddShard returns is the content of a word, cut with the counts of the header and the group,
      that agrees with every shard the group has received, this one included. */
  lemma AnswerSound(lib: Library, c: Collector, data: Bytes, now: int)
    requires Contract(lib)
    requires OnShard(lib, c, data, now).output.Ok? && OnShard(lib, c, data, now).output.value.Some?
    ensures ParseShardHeader(data).Ok?
    ensures var h := ParseShardHeader(data).value;
      var g := Admit(c, h, now).groups[h.groupID];
      && !g.completed && h.index as int < |g.shards| && Legal(h.DataShards(), g.parity)
      && exists word ::
           && IsWord(lib, h.DataShards(), word) && Erased(Store(g, h.index, data[HEADER_SIZE..]).shards, word)
           && OnShard(lib, c, data, now).output.value.value == Truncate(Concat(word[..h.DataShards()]), g.dataLen)
  {
    var h := ParseShardHeader(data).value;
    var g := Admit(c, h, now).groups[h.groupID];
    hide GetUint32, GetUint16, ParseShardHeader;
    var g1 := Store(g, h.index, data[HEADER_SIZE..]);
    assert Attempt(lib, g1, h.DataShards()).1 == OnShard(lib, c, data, now).output;
    DecodeSound(lib, h.DataShards(), g.parity, g1.shards, g1.dataLen);
  }
}
