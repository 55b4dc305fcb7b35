/** The framing encoder of the tunnel, static or adaptive (internal/fec/encoder.go). */
module Encoding {
  import opened Basics
  import opened ErasureCode
  import opened Fec
  import opened Shards
  import opened Delivery
  import Adaptive

  const GROUPS := 0x1_0000_0000

  function NextGroup(id: uint32): uint32 { (id + 1) % GROUPS }

  /** The frames of a packet, in order. */
  function Frames(lib: Library, id: uint32, packet: Coding): (frames: seq<Bytes>)
    requires packet.k >= 1
    ensures |frames| == |packet.Shards(lib)|
  {
    seq(|packet.Shards(lib)|, i requires 0 <= i < |packet.Shards(lib)| => Frame(lib, id, packet, i))
  }

  class FECEncoder {
    const lib: Library
    const adaptiveFEC: Adaptive.AdaptiveFEC?
    const staticFEC: Option<FEC>
    const useAdaptive: bool
    var groupID: uint32

    ghost predicate Valid()
      reads this, adaptiveFEC
    {
      && Contract(lib)
      && (adaptiveFEC != null ==> adaptiveFEC.Valid() && adaptiveFEC.lib == lib)
      && (staticFEC.Some? ==> staticFEC.value.Valid() && staticFEC.value.lib == lib)
    }

    predicate Adapts() { useAdaptive && adaptiveFEC != null }

    predicate Ready() { Adapts() || staticFEC.Some? }

    /** The data and parity shards the next packet gets. */
    ghost function DataShards(): (k: nat)
      requires Ready() && Valid()
      reads this, adaptiveFEC
      ensures k >= 1
    {
      if Adapts() then
        assert adaptiveFEC.currentParity in adaptiveFEC.encoderCache;
        adaptiveFEC.config.dataShards
      else staticFEC.value.dataShards
    }

    ghost function ParityShards(): (p: nat)
      requires Ready() && Valid()
      reads this, adaptiveFEC
      ensures p >= 1
    {
      if Adapts() then adaptiveFEC.currentParity else staticFEC.value.parityShards
    }

    /** The packet as it is cut now. */
    ghost function Coded(data: Bytes, timestamp: uint32): (packet: Coding)
      requires Ready() && Valid()
      reads this, adaptiveFEC
      ensures packet.k >= 1
    {
      Coding(DataShards(), ParityShards(), data, timestamp)
    }

    constructor (lib: Library, adaptiveFEC: Adaptive.AdaptiveFEC?, staticFEC: Option<FEC>, useAdaptive: bool)
      requires Contract(lib)
      requires adaptiveFEC != null ==> adaptiveFEC.Valid() && adaptiveFEC.lib == lib
      requires staticFEC.Some? ==> staticFEC.value.Valid() && staticFEC.value.lib == lib
      ensures Valid() && groupID == 0 && this.lib == lib
      ensures this.adaptiveFEC == adaptiveFEC && this.staticFEC == staticFEC && this.useAdaptive == useAdaptive
    {
      this.lib, this.adaptiveFEC, this.staticFEC, this.useAdaptive := lib, adaptiveFEC, staticFEC, useAdaptive;
      this.groupID := 0;
    }

    /** Frames a packet under the next group id; the id is used up even when there is nothing to send. The library
        refuses, if at all, only packets of more than 256 shards. */
    method Encode(data: Bytes, timestamp: uint32) returns (r: Result<seq<Bytes>, FecError>)
      requires Valid()
      modifies this, if adaptiveFEC != null then {adaptiveFEC.estimator} else {}
      ensures Valid() && groupID == NextGroup(old(groupID)) == (old(groupID) + 1) % 0x1_0000_0000
      ensures r == Err(NotInitialized) <==> !(useAdaptive && adaptiveFEC != null) && staticFEC.None?
      ensures r.Ok? && useAdaptive && adaptiveFEC != null ==>
        |r.value| == adaptiveFEC.config.dataShards + adaptiveFEC.currentParity
      ensures r.Ok? && !(useAdaptive && adaptiveFEC != null) ==>
        |r.value| == staticFEC.value.dataShards + staticFEC.value.parityShards
      ensures Ready() && data == [] ==> r == Err(EmptyData)
      ensures Ready() && data != [] && Encodes(lib, Coded(data, timestamp)) ==>
        var packet := Coded(data, timestamp);
        |packet.Shards(lib)| == packet.k + packet.p && r == Ok(Frames(lib, groupID, packet))
      ensures Ready() && data != [] && !Encodes(lib, Coded(data, timestamp)) ==>
        r == Err(EncodeFailed) && DataShards() + ParityShards() > 256
      ensures adaptiveFEC != null ==>
        adaptiveFEC.estimator.State() ==
          if Adapts() && data != [] && Encodes(lib, Coded(data, timestamp))
          then Adaptive.Observe(old(adaptiveFEC.estimator.State()), Adaptive.Sent(DataShards() + ParityShards()))
          else old(adaptiveFEC.estimator.State())
    {
      hide Word;
      groupID := NextGroup(groupID);
      if data != [] && Ready() {
        EncodesLegal(lib, Coded(data, timestamp));
      }
      hide Contract;
      var shards: array<Shard>;
      var parity: nat;
      if useAdaptive && adaptiveFEC != null {
        var encoded := adaptiveFEC.Encode(data);
        if encoded.Err? {
          return Err(encoded.error);
        }
        shards, parity := encoded.value.0, encoded.value.1;
      } else if staticFEC.Some? {
        var encoded := staticFEC.value.Encode(data);
        if encoded.Err? {
          return Err(encoded.error);
        }
        shards, parity := encoded.value, staticFEC.value.parityShards;
      } else {
        return Err(NotInitialized);
      }
      var result := FrameShards(lib, groupID, shards, parity, data, timestamp, Coded(data, timestamp));
      return Ok(result);
    }
  }

  /** Whether the library encodes a packet cut this way. */
  predicate Encodes(lib: Library, packet: Coding)
    requires packet.k >= 1
  {
    lib.encodes(packet.k, packet.p, ShardSize(|packet.data|, packet.k))
  }

  lemma EncodesLegal(lib: Library, packet: Coding)
    requires Contract(lib) && packet.k >= 1 && packet.data != []
    ensures Legal(packet.k, packet.p) ==> Encodes(lib, packet)
    ensures Encodes(lib, packet) ==> |packet.Shards(lib)| == packet.k + packet.p
  {
    var size := ShardSize(|packet.data|, packet.k);
    SizeCovers(|packet.data|, packet.k);
    if Encodes(lib, packet) {
      EncodedIsWord(lib, packet.k, packet.p, Split(packet.data, packet.k, size), size);
    }
  }

  /** Puts a header in front of every shard of a packet. */
  method FrameShards(lib: Library, id: uint32, shards: array<Shard>, parity: nat, data: Bytes, timestamp: uint32, ghost packet: Coding)
    returns (result: seq<Bytes>)
    requires packet.k >= 1 && packet.p == parity && packet.data == data && packet.timestamp == timestamp
    requires shards[..] == packet.Shards(lib) && shards.Length == packet.k + packet.p
    ensures result == Frames(lib, id, packet)
  {
    hide Coding.Shards;
    result := [];
    for i := 0 to shards.Length
      invariant result == Frames(lib, id, packet)[..i]
    {
      var header := ShardHeader(id, i % 256, shards.Length % 256, parity % 256, 0, |data| % 0x1_0000, timestamp);
      assert shards[i] == packet.Shards(lib)[i];
      assert Frames(lib, id, packet)[i] == header.Serialize() + shards[i];
      result := result + [header.Serialize() + shards[i]];
    }
  }

  // Group ids

  function GroupAfter(start: uint32, n: nat): uint32
    decreases n
  {
    if n == 0 then start else NextGroup(GroupAfter(start, n - 1))
  }

  lemma {:induction false} GroupAfterIs(start: uint32, n: nat)
    ensures GroupAfter(start, n) == (start + n) % GROUPS
  {
    if n > 0 {
      GroupAfterIs(start, n - 1);
      NextRemainder(start + n - 1);
    }
  }

  lemma NextRemainder(x: nat)
    ensures (x % GROUPS + 1) % GROUPS == (x + 1) % GROUPS
  {
  }

  /** The ids of the m-th and n-th packets are the same exactly when a multiple of 2^32 packets lies between them. */
  lemma GroupsRepeat(start: uint32, m: nat, n: nat)
    requires m <= n
    ensures GroupAfter(start, m) == GroupAfter(start, n) <==> (n - m) % GROUPS == 0
  {
    GroupAfterIs(start, m);
    GroupAfterIs(start, n);
    SameRemainder(start + m, start + n);
  }

  lemma SameRemainder(a: nat, b: nat)
    requires a <= b
    ensures a % GROUPS == b % GROUPS <==> (b - a) % GROUPS == 0
  {
    var qa, ra, qb, rb := a / GROUPS, a % GROUPS, b / GROUPS, b % GROUPS;
    assert b - a == GROUPS * (qb - qa) + (rb - ra);
    Remainder(qb - qa, rb - ra);
  }

  lemma Remainder(q: int, r: int)
    requires -GROUPS < r < GROUPS
    ensures (GROUPS * q + r) % GROUPS == 0 <==> r == 0
  {
    var x := GROUPS * q + r;
    if r == 0 {
      assert x / GROUPS == q;
    } else if r > 0 {
      assert x / GROUPS == q;
    } else {
      assert x / GROUPS == q - 1;
    }
  }
}
