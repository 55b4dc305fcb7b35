/** End to end: what the collector returns when the network delivers framed shards of
    any packets in any order, with loss and duplication, interleaved with Cleanup. */
module Delivery {
  import opened Basics
  import opened ErasureCode
  import opened Fec
  import opened Shards
  import opened CollectorSafety

  /** A packet as the encoder sent it: data cut into k data and p parity shards. */
  datatype Coding = Coding(k: nat, p: nat, data: Bytes, timestamp: uint32) {
    predicate Valid() {
      Legal(k, p) && data != []
    }

    /** The number of shards as the one-byte header field holds it: 256 becomes 0. */
    function Total(): byte { (k + p) % 256 }

    /** The length as the two-byte header field holds it. */
    function Length(): uint16 { |data| % 0x1_0000 }

    function Shards(lib: Library): seq<Shard>
      requires k >= 1
    {
      Word(lib, k, p, data)
    }
  }

  function Header(id: uint32, packet: Coding, index: byte): ShardHeader {
    ShardHeader(id, index, packet.Total(), packet.p % 256, 0, packet.Length(), packet.timestamp)
  }

  /** Shard number index of a packet, framed for the network. */
  function Frame(lib: Library, id: uint32, packet: Coding, index: nat): Bytes
    requires packet.k >= 1 && index < |packet.Shards(lib)|
  {
    Header(id, packet, index % 256).Serialize() + packet.Shards(lib)[index]
  }

  /** The bytes of a frame: the id, index, total and parity of its shard, the length and time stamp of its packet, the shard. */
  lemma FrameLayout(lib: Library, id: uint32, packet: Coding, index: nat)
    requires packet.k >= 1 && index < |packet.Shards(lib)|
    ensures var f := Frame(lib, id, packet, index);
      && |f| == 14 + |packet.Shards(lib)[index]| && f[14..] == packet.Shards(lib)[index]
      && Value(f[0..4]) == id && f[4] as int == index % 256 && f[5] as int == (packet.k + packet.p) % 256
      && f[6] as int == packet.p % 256 && f[7] == 0 && Value(f[8..10]) == |packet.data| % 0x1_0000
      && Value(f[10..14]) == packet.timestamp
  {
    var h := Header(id, packet, index % 256);
    HeaderLayout(h);
    hide Coding.Shards, Value, ShardHeader.Serialize;
    var f := Frame(lib, id, packet, index);
    assert f[0..4] == h.Serialize()[0..4] && f[8..10] == h.Serialize()[8..10] && f[10..14] == h.Serialize()[10..14];
  }

  /** One delivery of one framed shard of some packet, or one run of Cleanup. A lost shard is one that is never delivered. */
  datatype NetEvent = Deliver(id: uint32, packet: Coding, index: byte, now: int) | Clean(now: int)

  predicate Sendable(e: NetEvent) {
    e.Deliver? ==> e.packet.Valid() && e.index as int < e.packet.k + e.packet.p
  }

  ghost predicate AllSendable(events: seq<NetEvent>) {
    events != [] ==> Sendable(events[0]) && AllSendable(events[1..])
  }

  lemma ShardsShape(lib: Library, packet: Coding)
    requires Contract(lib) && packet.Valid()
    ensures var shards := packet.Shards(lib);
      && |shards| == packet.k + packet.p && IsWord(lib, packet.k, shards)
      && forall i :: 0 <= i < |shards| ==> shards[i] != []
  {
    var size := ShardSize(|packet.data|, packet.k);
    EncodedIsWord(lib, packet.k, packet.p, Split(packet.data, packet.k, size), size);
    SizeCovers(|packet.data|, packet.k);
  }

  function Received(lib: Library, e: NetEvent): Event
    requires Contract(lib) && Sendable(e)
  {
    match e
    case Deliver(id, packet, index, now) => ShardsShape(lib, packet); Arrive(Frame(lib, id, packet, index), now)
    case Clean(now) => Sweep(now)
  }

  function ReceivedAll(lib: Library, events: seq<NetEvent>): (received: seq<Event>)
    requires Contract(lib) && AllSendable(events)
    ensures |received| == |events|
    decreases events
  {
    if events == [] then [] else [Received(lib, events[0])] + ReceivedAll(lib, events[1..])
  }

  // The ideal receiver: it knows the packet of every group that is alive, and which of its indices it has seen

  datatype Life = Life(packet: Coding, seen: set<byte>, created: int)

  type Ideal = map<uint32, Life>

  /** What a receiver can return of a packet: everything, when its length fits the header field. */
  function Content(packet: Coding): Bytes {
    packet.data[..packet.Length()]
  }

  function LifeOf(s: Ideal, id: uint32, packet: Coding, now: int): Life {
    if id in s then s[id] else Life(packet, {}, now)
  }

  /** A group that has seen one more index, and what the receiver returns for it. */
  function Grown(life: Life, index: byte): Life {
    if life.packet.k + life.packet.p == 256 then life else life.(seen := life.seen + {index})
  }

  function Answer(life: Life, index: byte): Output {
    if life.packet.k + life.packet.p == 256 then Err(IndexOutOfRange)
    else if index !in life.seen && |life.seen| == life.packet.k - 1 then Ok(Some(Content(life.packet)))
    else Ok(None)
  }

  function IdealNext(timeout: int, s: Ideal, e: NetEvent): (Ideal, Output) {
    match e
    case Deliver(id, packet, index, now) =>
      var life := LifeOf(s, id, packet, now);
      (s[id := Grown(life, index)], Answer(life, index))
    case Clean(now) =>
      (s - (set id | id in s && now - s[id].created > timeout), Ok(None))
  }

  function IdealRun(timeout: int, s: Ideal, events: seq<NetEvent>): Ideal
    decreases events
  {
    if events == [] then s else IdealRun(timeout, IdealNext(timeout, s, events[0]).0, events[1..])
  }

  function IdealOutputs(timeout: int, s: Ideal, events: seq<NetEvent>): (outputs: seq<Output>)
    ensures |outputs| == |events|
    decreases events
  {
    if events == [] then []
    else
      var (s', output) := IdealNext(timeout, s, events[0]);
      [output] + IdealOutputs(timeout, s', events[1..])
  }

  /** The ids of live groups are distinct: a shard delivered under the id of a live group belongs to its packet.
      Once a Cleanup has removed the group, the id may come back with another packet. */
  predicate Possible(s: Ideal, e: NetEvent) {
    Sendable(e) && (e.Deliver? && e.id in s ==> s[e.id].packet == e.packet)
  }

  ghost predicate AllPossible(timeout: int, s: Ideal, events: seq<NetEvent>): (b: bool)
    ensures b ==> AllSendable(events)
    decreases events
  {
    events != [] ==> Possible(s, events[0]) && AllPossible(timeout, IdealNext(timeout, s, events[0]).0, events[1..])
  }

  // The collector refines the ideal receiver

  /** The shards stored for a set of indices. */
  function Holding(word: seq<Shard>, seen: set<byte>): (shards: seq<Option<Shard>>)
    ensures |shards| == |word|
    ensures forall i :: 0 <= i < |word| ==> shards[i] == if i in seen then Some(word[i]) else None
  {
    seq(|word|, i requires 0 <= i < |word| => if i in seen then Some(word[i]) else None)
  }

  ghost predicate Tracks(lib: Library, packet: Coding, g: Group, life: Life)
    requires packet.Valid()
  {
    && g.created == life.created && g.parity == packet.p && g.dataLen == packet.Length()
    && if packet.k + packet.p == 256 then g.shards == [] && !g.completed
       else
         && (forall i :: i in life.seen ==> i as int < packet.k + packet.p)
         && (g.completed <==> |life.seen| >= packet.k)
         && (!g.completed ==> g.received == |life.seen| && g.shards == Holding(packet.Shards(lib), life.seen))
  }

  ghost predicate Refines(lib: Library, groups: map<uint32, Group>, s: Ideal) {
    && groups.Keys == s.Keys
    && forall id :: id in s ==> s[id].packet.Valid() && Tracks(lib, s[id].packet, groups[id], s[id])
  }

  lemma {:induction false} CountHolding(word: seq<Shard>, seen: set<byte>)
    requires forall i :: 0 <= i < |word| ==> word[i] != []
    requires forall i :: i in seen ==> i as int < |word|
    requires |word| <= 256
    ensures CountPresent(Holding(word, seen)) == |seen|
  {
    var n := |word|;
    if n == 0 {
      assert seen == {};
    } else {
      var last: byte := n - 1;
      CountHolding(word[..n - 1], seen - {last});
      HoldingLast(word, seen, last);
      CountAppend(Holding(word[..n - 1], seen - {last}), [Holding(word, seen)[n - 1]]);
      SizeWithout(seen, last);
    }
  }

  lemma HoldingLast(word: seq<Shard>, seen: set<byte>, last: byte)
    requires last as int == |word| - 1
    ensures Holding(word, seen) == Holding(word[..last], seen - {last}) + [Holding(word, seen)[last]]
  {
  }

  lemma SizeWithout(seen: set<byte>, last: byte)
    ensures |seen| == |seen - {last}| + if last in seen then 1 else 0
  {
    if last !in seen {
      assert seen - {last} == seen;
    }
  }

  /** One shard of a packet arriving at a group that tracks it. */
  lemma StoreTracks(lib: Library, packet: Coding, g: Group, life: Life, index: byte)
    requires Contract(lib) && packet.Valid() && packet.k + packet.p <= 255
    requires Tracks(lib, packet, g, life) && !g.completed
    requires index as int < packet.k + packet.p == |packet.Shards(lib)|
    ensures var (g', output) := Attempt(lib, Store(g, index, packet.Shards(lib)[index]), packet.k);
      var life' := life.(seen := life.seen + {index});
      && Tracks(lib, packet, g', life')
      && output == if index !in life.seen && |life.seen| == packet.k - 1 then Ok(Some(Content(packet))) else Ok(None)
  {
    ShardsShape(lib, packet);
    StoreHolds(packet.Shards(lib), g, life.seen, index);
    hide Coding.Shards, IsWord, Contract, Holding, Store;
    AttemptHolds(lib, packet, Store(g, index, packet.Shards(lib)[index]), life.seen + {index});
    if index in life.seen {
      assert life.seen + {index} == life.seen;
    }
  }

  lemma StoreHolds(word: seq<Shard>, g: Group, seen: set<byte>, index: byte)
    requires g.shards == Holding(word, seen) && g.received == |seen| && index as int < |word|
    ensures Store(g, index, word[index]) == g.(shards := Holding(word, seen + {index}), received := |seen + {index}|)
  {
    if index in seen {
      assert seen + {index} == seen;
    } else {
      assert g.shards[index := Some(word[index])] == Holding(word, seen + {index});
    }
  }

  lemma AttemptHolds(lib: Library, packet: Coding, g: Group, seen: set<byte>)
    requires Contract(lib) && packet.Valid() && g.parity == packet.p && g.dataLen == packet.Length() && !g.completed
    requires g.received == |seen| && g.shards == Holding(packet.Shards(lib), seen)
    requires forall i :: i in seen ==> i as int < packet.k + packet.p == |packet.Shards(lib)|
    ensures var (g', output) := Attempt(lib, g, packet.k);
      if |seen| >= packet.k
      then
        && g'.completed && g'.created == g.created && g'.parity == g.parity && g'.dataLen == g.dataLen
        && output == Ok(Some(Content(packet)))
      else g' == g && output == Ok(None)
  {
    if |seen| >= packet.k {
      ShardsShape(lib, packet);
      hide Coding.Shards, IsWord, Contract;
      CountHolding(packet.Shards(lib), seen);
      HoldingDecodes(lib, packet, seen);
    }
  }

  lemma HoldingDecodes(lib: Library, packet: Coding, seen: set<byte>)
    requires Contract(lib) && packet.Valid() && CountPresent(Holding(packet.Shards(lib), seen)) >= packet.k
    ensures var d := DecodeShards(lib, packet.k, packet.p, Holding(packet.Shards(lib), seen), packet.Length());
      d.result == Ok(Content(packet))
    ensures FEC.New(lib, packet.k, packet.p).Ok?
  {
    DecodeErased(lib, packet.k, packet.p, packet.data, Holding(packet.Shards(lib), seen), packet.Length());
    TruncatePadded(packet.data, Zeros(packet.k * ShardSize(|packet.data|, packet.k) - |packet.data|), packet.Length());
  }

  lemma Framing(h: ShardHeader, body: Shard)
    ensures ParseShardHeader(h.Serialize() + body) == Ok(h) && (h.Serialize() + body)[HEADER_SIZE..] == body
  {
    HeaderRoundTrip(h, body);
    hide ParseShardHeader;
  }

  lemma FrameParses(lib: Library, id: uint32, packet: Coding, index: byte)
    requires packet.Valid() && index as int < |packet.Shards(lib)|
    ensures ParseShardHeader(Frame(lib, id, packet, index)) == Ok(Header(id, packet, index))
    ensures |Frame(lib, id, packet, index)| >= HEADER_SIZE
    ensures Frame(lib, id, packet, index)[HEADER_SIZE..] == packet.Shards(lib)[index]
  {
    hide Coding.Shards, Header, ShardHeader.Serialize, ParseShardHeader;
    Framing(Header(id, packet, index), packet.Shards(lib)[index]);
  }

  lemma TotalFits(packet: Coding)
    requires packet.Valid()
    ensures packet.Total() as int == if packet.k + packet.p == 256 then 0 else packet.k + packet.p
    ensures packet.p % 256 == packet.p
  {
  }

  lemma NewHolds(word: seq<Shard>)
    ensures seq(|word|, _ => None) == Holding(word, {})
  {
  }

  lemma NewTracks(lib: Library, id: uint32, packet: Coding, index: byte, now: int)
    requires Contract(lib) && packet.Valid()
    ensures Tracks(lib, packet, NewGroup(Header(id, packet, index), now), Life(packet, {}, now))
  {
    ShardsShape(lib, packet);
    TotalFits(packet);
    NewHolds(packet.Shards(lib));
    hide Contract, Coding.Shards, Coding.Total, IsWord, Holding;
  }

  lemma AdmitTracks(lib: Library, c: Collector, s: Ideal, id: uint32, packet: Coding, index: byte, now: int)
    requires Contract(lib) && packet.Valid() && Refines(lib, c.groups, s) && (id in s ==> s[id].packet == packet)
    ensures Tracks(lib, packet, Admit(c, Header(id, packet, index), now).groups[id], LifeOf(s, id, packet, now))
  {
    hide Contract, Tracks, NewGroup;
    if id !in s {
      NewTracks(lib, id, packet, index, now);
    }
  }

  /** One shard of a packet arriving at a group that tracks it, complete or not. */
  lemma ArriveTracks(lib: Library, packet: Coding, g: Group, life: Life, index: byte)
    requires Contract(lib) && packet.Valid() && packet.k + packet.p <= 255
    requires Tracks(lib, packet, g, life) && index as int < packet.k + packet.p == |packet.Shards(lib)|
    ensures var (g', output) := if g.completed then (g, Ok(None)) else Attempt(lib, Store(g, index, packet.Shards(lib)[index]), packet.k);
      var life' := life.(seen := life.seen + {index});
      && Tracks(lib, packet, g', life') && (index as int < |g.shards| || g.completed)
      && output == if index !in life.seen && |life.seen| == packet.k - 1 then Ok(Some(Content(packet))) else Ok(None)
  {
    hide Contract, Attempt, Store;
    if g.completed {
      CompletedTracks(lib, packet, g, life, index);
    } else {
      StoreTracks(lib, packet, g, life, index);
    }
  }

  lemma RefinesUpdate(lib: Library, groups: map<uint32, Group>, s: Ideal, id: uint32, g: Group, life: Life)
    requires life.packet.Valid() && Refines(lib, groups, s) && Tracks(lib, life.packet, g, life)
    ensures Refines(lib, groups[id := g], s[id := life])
  {
    hide Tracks;
  }

  /** What the collector does with a frame, once its header is parsed. */
  lemma OnFrame(lib: Library, c: Collector, id: uint32, packet: Coding, index: byte, now: int)
    requires packet.Valid() && index as int < |packet.Shards(lib)|
    ensures var g := Admit(c, Header(id, packet, index), now).groups[id];
      var step := OnShard(lib, c, Frame(lib, id, packet, index), now);
      if g.completed then step.after.groups == c.groups[id := g] && step.output == Ok(None)
      else if index as int >= |g.shards| then step.after.groups == c.groups[id := g] && step.output == Err(IndexOutOfRange)
      else
        var (g', output) := Attempt(lib, Store(g, index, packet.Shards(lib)[index]), packet.Total() as int - packet.p);
        step.after.groups == c.groups[id := g'] && step.output == output
  {
    hide Attempt, Store, Frame, GetUint32, GetUint16;
    FrameParses(lib, id, packet, index);
  }

  /** The group that a frame leaves behind, and what it makes the collector return. */
  lemma FrameTracks(lib: Library, c: Collector, id: uint32, packet: Coding, life: Life, index: byte, now: int) returns (g': Group)
    requires Contract(lib) && packet.Valid() && packet.k + packet.p < 256
    requires index as int < packet.k + packet.p == |packet.Shards(lib)|
    requires Tracks(lib, packet, Admit(c, Header(id, packet, index), now).groups[id], life)
    ensures Tracks(lib, packet, g', life.(seen := life.seen + {index}))
    ensures var step := OnShard(lib, c, Frame(lib, id, packet, index), now);
      && step.after.groups == c.groups[id := g']
      && step.output == if index !in life.seen && |life.seen| == packet.k - 1 then Ok(Some(Content(packet))) else Ok(None)
  {
    hide Contract, Attempt, Store, Frame, Coding.Shards, Tracks, OnShard, Admit, Content;
    OnFrame(lib, c, id, packet, index, now);
    var g := Admit(c, Header(id, packet, index), now).groups[id];
    ArriveTracks(lib, packet, g, life, index);
    g' := if g.completed then g else Attempt(lib, Store(g, index, packet.Shards(lib)[index]), packet.k).0;
  }

  lemma FullFrameTracks(lib: Library, c: Collector, id: uint32, packet: Coding, life: Life, index: byte, now: int) returns (g': Group)
    requires Contract(lib) && packet.Valid() && packet.k + packet.p == 256
    requires index as int < |packet.Shards(lib)|
    requires Tracks(lib, packet, Admit(c, Header(id, packet, index), now).groups[id], life)
    ensures Tracks(lib, packet, g', life)
    ensures var step := OnShard(lib, c, Frame(lib, id, packet, index), now);
      step.after.groups == c.groups[id := g'] && step.output == Err(IndexOutOfRange)
  {
    OnFrame(lib, c, id, packet, index, now);
    g' := Admit(c, Header(id, packet, index), now).groups[id];
    assert g'.shards == [] && !g'.completed;
    hide Contract, Attempt, Store, Frame, Coding.Shards, Tracks, OnShard, Admit;
  }

  lemma AnyFrameTracks(lib: Library, c: Collector, id: uint32, life: Life, index: byte, now: int) returns (g': Group)
    requires var packet := life.packet;
      Contract(lib) && packet.Valid() && index as int < packet.k + packet.p == |packet.Shards(lib)|
    requires Tracks(lib, life.packet, Admit(c, Header(id, life.packet, index), now).groups[id], life)
    ensures Tracks(lib, life.packet, g', Grown(life, index))
    ensures var step := OnShard(lib, c, Frame(lib, id, life.packet, index), now);
      step.after.groups == c.groups[id := g'] && step.output == Answer(life, index)
  {
    hide Contract, Frame, Coding.Shards, Tracks, OnShard, Content, Admit, Header;
    if life.packet.k + life.packet.p == 256 {
      g' := FullFrameTracks(lib, c, id, life.packet, life, index, now);
    } else {
      g' := FrameTracks(lib, c, id, life.packet, life, index, now);
    }
  }

  lemma DeliverTracks(lib: Library, timeout: int, c: Collector, s: Ideal, e: NetEvent) returns (g': Group)
    requires Contract(lib) && Possible(s, e) && e.Deliver? && Refines(lib, c.groups, s)
    ensures var life := LifeOf(s, e.id, e.packet, e.now);
      var step := Next(lib, timeout, c, Received(lib, e));
      && Tracks(lib, e.packet, g', Grown(life, e.index))
      && step.after.groups == c.groups[e.id := g'] && step.output == Answer(life, e.index)
  {
    ShardsShape(lib, e.packet);
    hide Contract, Frame, Coding.Shards, Refines, Tracks, OnShard, Answer, Grown;
    AdmitTracks(lib, c, s, e.id, e.packet, e.index, e.now);
    g' := AnyFrameTracks(lib, c, e.id, LifeOf(s, e.id, e.packet, e.now), e.index, e.now);
  }

  lemma DeliverRefines(lib: Library, timeout: int, c: Collector, s: Ideal, e: NetEvent)
    requires Contract(lib) && Possible(s, e) && e.Deliver? && Refines(lib, c.groups, s)
    ensures var step := Next(lib, timeout, c, Received(lib, e));
      var (s', output) := IdealNext(timeout, s, e);
      Refines(lib, step.after.groups, s') && step.output == output
  {
    hide Contract, Refines, Tracks, Next, Received, Content, Answer;
    var g' := DeliverTracks(lib, timeout, c, s, e);
    RefinesUpdate(lib, c.groups, s, e.id, g', Grown(LifeOf(s, e.id, e.packet, e.now), e.index));
  }

  lemma CompletedTracks(lib: Library, packet: Coding, g: Group, life: Life, index: byte)
    requires packet.Valid() && packet.k + packet.p < 256 && index as int < packet.k + packet.p
    requires Tracks(lib, packet, g, life) && g.completed
    ensures Tracks(lib, packet, g, life.(seen := life.seen + {index})) && |life.seen| > packet.k - 1
  {
    var seen := life.seen + {index};
    if index in life.seen {
      assert seen == life.seen;
    }
  }

  lemma CleanRefines(lib: Library, timeout: int, c: Collector, s: Ideal, e: NetEvent)
    requires Contract(lib) && e.Clean? && Refines(lib, c.groups, s)
    ensures var step := Next(lib, timeout, c, Received(lib, e));
      var (s', output) := IdealNext(timeout, s, e);
      Refines(lib, step.after.groups, s') && step.output == output
  {
    assert ExpiredIds(c, e.now, timeout) == set id | id in s && e.now - s[id].created > timeout;
  }

  /** Over every run of the network, the collector returns exactly what the ideal receiver returns:
      a packet's content on the arrival of the k-th distinct shard of its group, and nothing otherwise,
      until Cleanup forgets the group. Afterwards the two agree again, so that runs can follow one another. */
  lemma {:induction false} RunRefines(lib: Library, timeout: int, c: Collector, s: Ideal, events: seq<NetEvent>)
    requires Contract(lib) && Refines(lib, c.groups, s)
    requires AllPossible(timeout, s, events)
    ensures Outputs(lib, timeout, c, ReceivedAll(lib, events)) == IdealOutputs(timeout, s, events)
    ensures Refines(lib, Run(lib, timeout, c, ReceivedAll(lib, events)).groups, IdealRun(timeout, s, events))
    decreases events
  {
    if events != [] {
      if events[0].Deliver? {
        DeliverRefines(lib, timeout, c, s, events[0]);
      } else {
        CleanRefines(lib, timeout, c, s, events[0]);
      }
      var after := Next(lib, timeout, c, Received(lib, events[0])).after;
      hide Next, IdealNext, Refines, Received, Possible;
      RunRefines(lib, timeout, after, IdealNext(timeout, s, events[0]).0, events[1..]);
    }
  }

  // What the ideal receiver does, packet by packet

  /** The indices of a packet that a run delivers. */
  function Indices(events: seq<NetEvent>, id: uint32): set<byte> {
    set i | 0 <= i < |events| && events[i].Deliver? && events[i].id == id :: events[i].index
  }

  /** No Cleanup of the run finds the group of this id expired. */
  predicate Undisturbed(timeout: int, s: Ideal, events: seq<NetEvent>, id: uint32)
    decreases events
  {
    events != [] ==>
      && (events[0].Clean? && id in s ==> events[0].now - s[id].created <= timeout)
      && Undisturbed(timeout, IdealNext(timeout, s, events[0]).0, events[1..], id)
  }

  /** The packet of a group: the one it has, or else the one whose shard arrives first. */
  function PacketOf(s: Ideal, events: seq<NetEvent>, id: uint32): Option<Coding>
    decreases events
  {
    if id in s then Some(s[id].packet)
    else if events == [] then None
    else if events[0].Deliver? && events[0].id == id then Some(events[0].packet)
    else PacketOf(s, events[1..], id)
  }

  /** The packets returned for one id, in order. */
  function Returned(events: seq<NetEvent>, outputs: seq<Output>, id: uint32): seq<Bytes>
    requires |events| == |outputs|
  {
    if events == [] then []
    else
      (if events[0].Deliver? && events[0].id == id && outputs[0].Ok? && outputs[0].value.Some? then [outputs[0].value.value] else [])
      + Returned(events[1..], outputs[1..], id)
  }

  function Seen(s: Ideal, id: uint32): set<byte> {
    if id in s then s[id].seen else {}
  }

  function First(e: NetEvent, id: uint32): set<byte> {
    if e.Deliver? && e.id == id then {e.index} else {}
  }

  lemma IdealHit(timeout: int, s: Ideal, e: NetEvent)
    requires Possible(s, e) && e.Deliver? && e.packet.k + e.packet.p <= 255
    ensures var (s', output) := IdealNext(timeout, s, e);
      && Seen(s', e.id) == Seen(s, e.id) + {e.index} && e.id in s' && s'[e.id].packet == e.packet
      && output == if |Seen(s, e.id)| < e.packet.k <= |Seen(s', e.id)| then Ok(Some(Content(e.packet))) else Ok(None)
  {
    hide Content;
    if e.index in Seen(s, e.id) {
      assert Seen(s, e.id) + {e.index} == Seen(s, e.id);
    }
  }

  lemma IdealMiss(timeout: int, s: Ideal, e: NetEvent, id: uint32)
    requires !(e.Deliver? && e.id == id)
    requires e.Clean? && id in s ==> e.now - s[id].created <= timeout
    ensures var s' := IdealNext(timeout, s, e).0;
      && (id in s' <==> id in s) && (id in s ==> s'[id] == s[id]) && Seen(s', id) == Seen(s, id)
  {
    hide Content;
  }

  lemma {:induction false} PacketCongruent(s: Ideal, s': Ideal, events: seq<NetEvent>, id: uint32)
    requires (id in s <==> id in s') && (id in s ==> s'[id].packet == s[id].packet)
    ensures PacketOf(s, events, id) == PacketOf(s', events, id)
    decreases events
  {
    if events != [] {
      PacketCongruent(s, s', events[1..], id);
    }
  }

  lemma PacketKept(timeout: int, s: Ideal, events: seq<NetEvent>, id: uint32)
    requires events != [] && Possible(s, events[0])
    requires events[0].Clean? && id in s ==> events[0].now - s[id].created <= timeout
    ensures PacketOf(IdealNext(timeout, s, events[0]).0, events[1..], id) == PacketOf(s, events, id)
  {
    hide Content;
    var s' := IdealNext(timeout, s, events[0]).0;
    if !(events[0].Deliver? && events[0].id == id) {
      IdealMiss(timeout, s, events[0], id);
      PacketCongruent(s, s', events[1..], id);
    }
  }

  /** Adding what the rest of a run returns to what its first event returns. */
  lemma Crossing(before: nat, middle: nat, after: nat, k: nat, content: Bytes)
    requires before <= middle <= after
    ensures (if before < k <= middle then [content] else []) + (if middle < k <= after then [content] else [])
         == if before < k <= after then [content] else []
  {}

  /** What is returned for an id from any state on, while no Cleanup finds its group expired. */
  lemma {:induction false} IdealReturns(timeout: int, s: Ideal, events: seq<NetEvent>, id: uint32, packet: Coding)
    requires AllPossible(timeout, s, events) && Undisturbed(timeout, s, events, id)
    requires PacketOf(s, events, id) == Some(packet) && packet.k + packet.p <= 255
    ensures Returned(events, IdealOutputs(timeout, s, events), id)
         == if |Seen(s, id)| < packet.k <= |Seen(s, id) + Indices(events, id)| then [Content(packet)] else []
    decreases events
  {
    if events == [] {
      assert Seen(s, id) + Indices(events, id) == Seen(s, id);
    } else {
      var s' := IdealNext(timeout, s, events[0]).0;
      PacketKept(timeout, s, events, id);
      IdealReturns(timeout, s', events[1..], id, packet);
      IdealFirst(timeout, s, events, id, packet);
      IndicesFirst(events, id);
      hide IdealNext, Indices, Content, Seen, Possible, PacketOf, First;
      Regroup(Seen(s, id), First(events[0], id), Indices(events[1..], id));
      Crossing(|Seen(s, id)|, |Seen(s', id)|, |Seen(s, id) + Indices(events, id)|, packet.k, Content(packet));
    }
  }

  /** What the first event returns for an id. */
  lemma IdealFirst(timeout: int, s: Ideal, events: seq<NetEvent>, id: uint32, packet: Coding)
    requires events != [] && Possible(s, events[0])
    requires events[0].Clean? && id in s ==> events[0].now - s[id].created <= timeout
    requires PacketOf(s, events, id) == Some(packet) && packet.k + packet.p <= 255
    ensures var (s', output) := IdealNext(timeout, s, events[0]);
      && Seen(s', id) == Seen(s, id) + First(events[0], id)
      && (if events[0].Deliver? && events[0].id == id && output.Ok? && output.value.Some? then [output.value.value] else [])
         == if |Seen(s, id)| < packet.k <= |Seen(s', id)| then [Content(packet)] else []
  {
    var e := events[0];
    if e.Deliver? && e.id == id {
      IdealHit(timeout, s, e);
    } else {
      IdealMiss(timeout, s, e, id);
      assert Seen(s, id) + {} == Seen(s, id);
    }
  }

  lemma IndicesFirst(events: seq<NetEvent>, id: uint32)
    requires events != []
    ensures Indices(events, id) == First(events[0], id) + Indices(events[1..], id)
  {
    var first := First(events[0], id);
    forall x | x in Indices(events, id) ensures x in first + Indices(events[1..], id) {
      var i :| 0 <= i < |events| && events[i].Deliver? && events[i].id == id && events[i].index == x;
      if i > 0 {
        assert events[1..][i - 1] == events[i];
      }
    }
    forall x | x in Indices(events[1..], id) ensures x in Indices(events, id) {
      var i :| 0 <= i < |events[1..]| && events[1..][i].Deliver? && events[1..][i].id == id && events[1..][i].index == x;
      assert events[i + 1] == events[1..][i];
    }
  }

  lemma Regroup(a: set<byte>, b: set<byte>, c: set<byte>)
    ensures a + b + c == a + (b + c)
    ensures |a| <= |a + b| <= |a + b + c|
  {
    assert a + b == a + (b - a);
    assert a + b + c == a + b + (c - (a + b));
  }

  lemma {:induction false} NothingReturned(timeout: int, s: Ideal, events: seq<NetEvent>, id: uint32)
    requires id !in s && PacketOf(s, events, id).None?
    ensures Returned(events, IdealOutputs(timeout, s, events), id) == []
    decreases events
  {
    if events != [] {
      var s' := IdealNext(timeout, s, events[0]).0;
      IdealMiss(timeout, s, events[0], id);
      PacketCongruent(s, s', events[1..], id);
      NothingReturned(timeout, s', events[1..], id);
    }
  }

  lemma {:induction false} FullHouse(timeout: int, s: Ideal, events: seq<NetEvent>, id: uint32, packet: Coding)
    requires AllPossible(timeout, s, events) && Undisturbed(timeout, s, events, id)
    requires PacketOf(s, events, id) == Some(packet) && packet.k + packet.p == 256
    ensures Returned(events, IdealOutputs(timeout, s, events), id) == []
    decreases events
  {
    if events != [] {
      PacketKept(timeout, s, events, id);
      FullHouse(timeout, IdealNext(timeout, s, events[0]).0, events[1..], id, packet);
    }
  }

  /** A stretch of a run of the network, from where no group has this id to where a Cleanup may end its life. */
  ghost predicate Lifetime(timeout: int, earlier: seq<NetEvent>, events: seq<NetEvent>, id: uint32) {
    && AllPossible(timeout, map[], earlier)
    && id !in IdealRun(timeout, map[], earlier)
    && AllPossible(timeout, IdealRun(timeout, map[], earlier), events)
    && Undisturbed(timeout, IdealRun(timeout, map[], earlier), events, id)
  }

  /** What the collector returns for an id during a stretch of a run. */
  function ReturnedFor(lib: Library, timeout: int, earlier: seq<NetEvent>, events: seq<NetEvent>, id: uint32): seq<Bytes>
    requires Contract(lib) && AllSendable(earlier) && AllSendable(events)
  {
    Returned(events, Outputs(lib, timeout, Run(lib, timeout, EMPTY, ReceivedAll(lib, earlier)), ReceivedAll(lib, events)), id)
  }

  lemma ReturnedIdeally(lib: Library, timeout: int, earlier: seq<NetEvent>, events: seq<NetEvent>, id: uint32)
    requires Contract(lib) && Lifetime(timeout, earlier, events, id)
    ensures ReturnedFor(lib, timeout, earlier, events, id)
         == Returned(events, IdealOutputs(timeout, IdealRun(timeout, map[], earlier), events), id)
  {
    RunRefines(lib, timeout, EMPTY, map[], earlier);
    RunRefines(lib, timeout, Run(lib, timeout, EMPTY, ReceivedAll(lib, earlier)), IdealRun(timeout, map[], earlier), events);
  }

  /** In every lifetime of every id: a packet is recovered exactly once when at least k of its k+p shards arrive, and
      never otherwise, however the shards of all packets are lost, duplicated, reordered and interleaved, and whatever
      packets the id has stood for before. */
  lemma RecoveredExactlyOnce(lib: Library, timeout: int, earlier: seq<NetEvent>, events: seq<NetEvent>, id: uint32, packet: Coding)
    requires Contract(lib) && Lifetime(timeout, earlier, events, id)
    requires PacketOf(map[], events, id) == Some(packet) && packet.k + packet.p <= 255
    ensures ReturnedFor(lib, timeout, earlier, events, id) == if |Indices(events, id)| >= packet.k then [Content(packet)] else []
  {
    hide AllPossible, Undisturbed, Content;
    var s := IdealRun(timeout, map[], earlier);
    ReturnedIdeally(lib, timeout, earlier, events, id);
    PacketCongruent(map[], s, events, id);
    IdealReturns(timeout, s, events, id, packet);
    assert {} + Indices(events, id) == Indices(events, id);
    FirstPossible(timeout, s, events, id, packet);
  }

  /** The packet of a lifetime is one the sender can have made. */
  lemma {:induction false} FirstPossible(timeout: int, s: Ideal, events: seq<NetEvent>, id: uint32, packet: Coding)
    requires AllPossible(timeout, s, events) && id !in s && PacketOf(s, events, id) == Some(packet)
    ensures packet.Valid()
    decreases events
  {
    var s' := IdealNext(timeout, s, events[0]).0;
    if !(events[0].Deliver? && events[0].id == id) {
      IdealMiss(timeout, s, events[0], id);
      PacketCongruent(s, s', events[1..], id);
      FirstPossible(timeout, s', events[1..], id, packet);
    }
  }

  /** An id none of whose shards arrive is never returned. */
  lemma NeverInvented(lib: Library, timeout: int, earlier: seq<NetEvent>, events: seq<NetEvent>, id: uint32)
    requires Contract(lib) && Lifetime(timeout, earlier, events, id) && PacketOf(map[], events, id).None?
    ensures ReturnedFor(lib, timeout, earlier, events, id) == []
  {
    var s := IdealRun(timeout, map[], earlier);
    ReturnedIdeally(lib, timeout, earlier, events, id);
    PacketCongruent(map[], s, events, id);
    NothingReturned(timeout, s, events, id);
  }

  /** With 256 shards the count wraps to zero in the header, and the collector refuses every shard. */
  lemma FullHouseRefused(lib: Library, timeout: int, earlier: seq<NetEvent>, events: seq<NetEvent>, id: uint32, packet: Coding)
    requires Contract(lib) && Lifetime(timeout, earlier, events, id)
    requires PacketOf(map[], events, id) == Some(packet) && packet.k + packet.p == 256
    ensures ReturnedFor(lib, timeout, earlier, events, id) == []
  {
    var s := IdealRun(timeout, map[], earlier);
    ReturnedIdeally(lib, timeout, earlier, events, id);
    PacketCongruent(map[], s, events, id);
    FullHouse(timeout, s, events, id, packet);
  }

  /** What a receiver gets from a packet of which enough shards arrive is the packet itself exactly when
      the number of shards fits one byte and the length fits two. */
  lemma FaithfulExactly(lib: Library, timeout: int, earlier: seq<NetEvent>, events: seq<NetEvent>, id: uint32, packet: Coding)
    requires Contract(lib) && Lifetime(timeout, earlier, events, id)
    requires PacketOf(map[], events, id) == Some(packet) && |Indices(events, id)| >= packet.k
    ensures ReturnedFor(lib, timeout, earlier, events, id) == [packet.data]
        <==> packet.k + packet.p <= 255 && |packet.data| <= 65535
  {
    hide AllPossible, Undisturbed, Content, Indices;
    var s := IdealRun(timeout, map[], earlier);
    PacketCongruent(map[], s, events, id);
    FirstPossible(timeout, s, events, id, packet);
    if packet.k + packet.p == 256 {
      FullHouseRefused(lib, timeout, earlier, events, id, packet);
    } else {
      RecoveredExactlyOnce(lib, timeout, earlier, events, id, packet);
      ContentWhole(packet);
    }
  }

  lemma ContentWhole(packet: Coding)
    ensures Content(packet) == packet.data <==> |packet.data| <= 65535
  {
    assert |Content(packet)| == packet.Length();
  }
}
