/** Shard framing and the collector that puts packets together again (internal/fec/shards.go). */
module Shards {
  import opened Basics
  import opened ErasureCode
  import opened Fec

  const HEADER_SIZE := 14

  datatype ShardHeader = ShardHeader(
    groupID: uint32, index: byte, total: byte, parity: byte, reserved: byte, dataLen: uint16, timestamp: uint32)
  {
    function Serialize(): (b: Bytes)
      ensures |b| == HEADER_SIZE
    {
      PutUint32(groupID) + [index, total, parity, reserved] + PutUint16(dataLen) + PutUint32(timestamp)
    }

    function DataShards(): int { total as int - parity as int }
  }

  datatype ShardError = ShardTooShort | IndexOutOfRange | NoDecoder(reason: FecError)

  function ParseShardHeader(data: Bytes): Result<ShardHeader, ShardError> {
    if |data| < HEADER_SIZE then Err(ShardTooShort)
    else
      Ok(ShardHeader(GetUint32(data[0..4]), data[4], data[5], data[6], data[7], GetUint16(data[8..10]), GetUint32(data[10..14])))
  }

  /** A serialized header parses to itself whatever follows it. */
  lemma HeaderRoundTrip(h: ShardHeader, body: Bytes)
    ensures ParseShardHeader(h.Serialize() + body) == Ok(h)
  {
    var data := h.Serialize() + body;
    assert data[0..4] == PutUint32(h.groupID);
    assert data[8..10] == PutUint16(h.dataLen);
    assert data[10..14] == PutUint32(h.timestamp);
    Uint32RoundTrip(h.groupID);
    Uint16RoundTrip(h.dataLen, [0, 0]);
    Uint32RoundTrip(h.timestamp);
  }

  /** Every fourteen bytes are some header, and serializing it gives them back. */
  lemma HeaderInverse(data: Bytes)
    requires |data| >= HEADER_SIZE
    ensures ParseShardHeader(data).Ok? && ParseShardHeader(data).value.Serialize() == data[..HEADER_SIZE]
  {
    Uint32Inverse(data[0..4]);
    Uint16RoundTrip(0, data[8..10]);
    Uint32Inverse(data[10..14]);
    var h := ParseShardHeader(data).value;
    assert h.Serialize() == data[0..4] + [data[4], data[5], data[6], data[7]] + data[8..10] + data[10..14];
  }

  /** Which of the fourteen bytes hold which field. */
  lemma HeaderLayout(h: ShardHeader)
    ensures var b := h.Serialize();
      && |b| == 14 && Value(b[0..4]) == h.groupID && b[4] == h.index && b[5] == h.total && b[6] == h.parity && b[7] == h.reserved
      && Value(b[8..10]) == h.dataLen && Value(b[10..14]) == h.timestamp
  {
    BigEndian(h.dataLen, h.groupID);
    BigEndian(0, h.timestamp);
    hide PutUint32, PutUint16, Value;
    var b := h.Serialize();
    assert b[0..4] == PutUint32(h.groupID) && b[8..10] == PutUint16(h.dataLen) && b[10..14] == PutUint32(h.timestamp);
  }

  // The collector as a function of its state

  datatype Group = Group(
    groupID: uint32, shards: seq<Option<Shard>>, dataLen: nat, parity: nat, received: nat, created: int, completed: bool, timestamp: uint32)

  datatype Collector = Collector(groups: map<uint32, Group>, totalGroups: nat, completedGroups: nat, failedGroups: nat)

  const EMPTY := Collector(map[], 0, 0, 0)

  function NewGroup(h: ShardHeader, now: int): Group {
    Group(h.groupID, seq(h.total, _ => None), h.dataLen, h.parity, 0, now, false, h.timestamp)
  }

  datatype Step = Step(after: Collector, output: Result<Option<Bytes>, ShardError>)

  /** The group a header belongs to, created if need be. */
  function Admit(c: Collector, h: ShardHeader, now: int): (c': Collector)
    ensures h.groupID in c'.groups
  {
    if h.groupID in c.groups then c
    else c.(groups := c.groups[h.groupID := NewGroup(h, now)], totalGroups := c.totalGroups + 1)
  }

  /** A shard already received at the index is kept, even an empty one. */
  function Store(g: Group, index: nat, body: Shard): Group
    requires index < |g.shards|
  {
    if g.shards[index].None? then g.(shards := g.shards[index := Some(body)], received := g.received + 1) else g
  }

  /** What becomes of a group that has just stored a shard whose header announces k data shards. */
  function Attempt(lib: Library, g: Group, k: int): (Group, Result<Option<Bytes>, ShardError>) {
    if g.received < k then (g, Ok(None))
    else
      match FEC.New(lib, k, g.parity)
      case Err(e) => (g, Err(NoDecoder(e)))
      case Ok(_) =>
        var d := DecodeShards(lib, k, g.parity, g.shards, g.dataLen);
        if d.result.Ok? then (g.(shards := d.shards, completed := true), Ok(Some(d.result.value)))
        else (g.(shards := d.shards), Ok(None))
  }

  function OnShard(lib: Library, c: Collector, data: Bytes, now: int): Step {
    match ParseShardHeader(data)
    case Err(e) => Step(c, Err(e))
    case Ok(h) =>
      var c1 := Admit(c, h, now);
      var g := c1.groups[h.groupID];
      if g.completed then Step(c1, Ok(None))
      else if h.index >= |g.shards| then Step(c1, Err(IndexOutOfRange))
      else
        var (g', output) := Attempt(lib, Store(g, h.index, data[HEADER_SIZE..]), h.DataShards());
        Step(c1.(groups := c1.groups[h.groupID := g'],
                 completedGroups := c1.completedGroups + if g'.completed then 1 else 0),
             output)
  }

  /** Which bytes the collector refuses: those too short for a header, and of a group that is not complete those with an
      index beyond its slots, and those that bring it to the number of data shards they announce when no code has such counts. */
  lemma RefusedExactly(lib: Library, c: Collector, data: Bytes, now: int)
    requires Contract(lib)
    ensures var output := OnShard(lib, c, data, now).output;
      if |data| < 14 then output == Err(ShardTooShort)
      else
        var h := ParseShardHeader(data).value;
        var slots := if h.groupID in c.groups then c.groups[h.groupID].shards else seq(h.total, _ => None);
        var received := if h.groupID in c.groups then c.groups[h.groupID].received else 0;
        var parity := if h.groupID in c.groups then c.groups[h.groupID].parity else h.parity as int;
        var k := h.total as int - h.parity as int;
        if h.groupID in c.groups && c.groups[h.groupID].completed then output == Ok(None)
        else if h.index as int >= |slots| then output == Err(IndexOutOfRange)
        else
          var enough := received + (if slots[h.index].None? then 1 else 0) >= k;
          && (output.Err? <==> enough && !(k >= 1 && parity >= 1 && k + parity <= 256))
          && (output.Err? ==> output.error.NoDecoder?) && (!enough ==> output == Ok(None))
  {
    hide GetUint16, GetUint32;
  }

  /** The first shard of a group says what the group is. */
  lemma GroupBegins(lib: Library, c: Collector, data: Bytes, now: int)
    requires Contract(lib) && |data| >= 14 && ParseShardHeader(data).value.groupID !in c.groups
    ensures var h := ParseShardHeader(data).value;
      var after := OnShard(lib, c, data, now).after;
      && h.groupID in after.groups
      && var g := after.groups[h.groupID];
         && g.groupID == h.groupID && g.dataLen == h.dataLen as int && g.parity == h.parity as int
         && g.created == now && g.timestamp == h.timestamp && |g.shards| == h.total as int
         && (h.index as int < h.total as int ==> g.received == 1 && g.shards[h.index].Some?)
         && (h.index as int >= h.total as int ==> g.received == 0)
  {
    hide GetUint16, GetUint32;
    var h := ParseShardHeader(data).value;
    if h.index as int < h.total as int && h.DataShards() >= 0 {
      var g := Store(NewGroup(h, now), h.index, data[HEADER_SIZE..]);
      DecodeKeeps(lib, h.DataShards(), g.parity, g.shards, g.dataLen);
    }
  }

  predicate Expired(g: Group, now: int, timeout: int) {
    now - g.created > timeout
  }

  function ExpiredIds(c: Collector, now: int, timeout: int): set<uint32> {
    set id | id in c.groups && Expired(c.groups[id], now, timeout)
  }

  function PendingIds(c: Collector): set<uint32> {
    set id | id in c.groups && !c.groups[id].completed
  }

  function OnCleanup(c: Collector, now: int, timeout: int): Collector {
    var gone := ExpiredIds(c, now, timeout);
    c.(groups := c.groups - gone, failedGroups := c.failedGroups + |gone * PendingIds(c)|)
  }

  // The collector as an object

  class ShardGroup {
    const groupID: uint32
    const shards: array<Option<Shard>>
    var dataLen: nat
    var parity: nat
    var received: nat
    const created: int
    var completed: bool
    const timestamp: uint32

    ghost function State(): Group
      reads this, shards
    {
      Group(groupID, shards[..], dataLen, parity, received, created, completed, timestamp)
    }

    constructor (h: ShardHeader, now: int)
      ensures State() == NewGroup(h, now)
      ensures fresh(shards)
    {
      groupID := h.groupID;
      shards := new Option<Shard>[h.total](_ => None);
      dataLen := h.dataLen;
      parity := h.parity;
      received := 0;
      created := now;
      completed := false;
      timestamp := h.timestamp;
      new;
      assert shards[..] == seq(h.total, _ => None);
    }

    /** Stores a shard in a group that is not complete, and decodes once there are enough. */
    method Receive(lib: Library, index: nat, body: Shard, k: int) returns (output: Result<Option<Bytes>, ShardError>)
      requires Contract(lib) && !completed && index < shards.Length
      modifies this, shards
      ensures (State(), output) == Attempt(lib, Store(old(State()), index, body), k)
    {
      if shards[index].None? {
        shards[index] := Some(body);
        received := received + 1;
      }
      assert State() == Store(old(State()), index, body);
      if received >= k {
        match FEC.New(lib, k, parity)
        case Err(e) =>
          return Err(NoDecoder(e));
        case Ok(fec) =>
          var r := fec.Decode(shards, dataLen);
          if r.Ok? {
            completed := true;
            return Ok(Some(r.value));
          }
      }
      return Ok(None);
    }
  }

  ghost function States(groups: map<uint32, ShardGroup>): (states: map<uint32, Group>)
    reads groups.Values, set id | id in groups :: groups[id].shards
    ensures states.Keys == groups.Keys
  {
    map id | id in groups :: groups[id].State()
  }

  lemma StatesAt(groups: map<uint32, ShardGroup>, id: uint32)
    requires id in groups
    ensures States(groups)[id] == groups[id].State()
  {}

  ghost function ObjectsOf(groups: map<uint32, ShardGroup>): set<object> {
    (set id | id in groups :: groups[id]) + (set id | id in groups :: groups[id].shards)
  }

  lemma ObjectsWith(groups: map<uint32, ShardGroup>, id: uint32, group: ShardGroup)
    ensures ObjectsOf(groups[id := group]) <= ObjectsOf(groups) + {group, group.shards}
  {}

  lemma StatesWith(groups: map<uint32, ShardGroup>, id: uint32, group: ShardGroup)
    ensures States(groups[id := group]) == States(groups)[id := group.State()]
  {
    hide ShardGroup.State;
  }

  lemma StatesChange(groups: map<uint32, ShardGroup>, before: map<uint32, Group>, id: uint32)
    requires id in groups && before.Keys == groups.Keys
    requires forall i :: i in groups && i != id ==> before[i] == groups[i].State()
    ensures States(groups) == before[id := groups[id].State()]
  {
    hide ShardGroup.State;
  }

  lemma StatesWithout(groups: map<uint32, ShardGroup>, gone: set<uint32>)
    ensures States(groups - gone) == States(groups) - gone
    ensures ObjectsOf(groups - gone) <= ObjectsOf(groups)
  {
    hide ShardGroup.State;
  }

  datatype CollectorStats = CollectorStats(pendingGroups: nat, completedGroups: nat, failedGroups: nat, totalGroups: nat)

  class ShardCollector {
    const lib: Library
    const timeout: int
    var groups: map<uint32, ShardGroup>
    var totalGroups: nat
    var completedGroups: nat
    var failedGroups: nat

    /** No two groups share an object or a shard slice. */
    ghost predicate Valid()
      reads this
    {
      && Contract(lib)
      && forall i, j :: i in groups && j in groups && i != j ==> groups[i] != groups[j] && groups[i].shards != groups[j].shards
    }

    ghost function Objects(): set<object>
      reads this
    {
      ObjectsOf(groups)
    }

    ghost function State(): Collector
      reads this, Objects()
    {
      Collector(States(groups), totalGroups, completedGroups, failedGroups)
    }

    constructor (lib: Library, timeout: int)
      requires Contract(lib)
      ensures Valid() && State() == EMPTY && this.timeout == timeout && this.lib == lib
    {
      this.lib := lib;
      this.timeout := timeout;
      groups := map[];
      totalGroups, completedGroups, failedGroups := 0, 0, 0;
    }

    /** The group of a header, created if need be. */
    method Lookup(h: ShardHeader, now: int) returns (group: ShardGroup)
      requires Valid()
      modifies this
      ensures Valid() && h.groupID in groups && group == groups[h.groupID]
      ensures State() == Admit(old(State()), h, now) && State().groups[h.groupID] == group.State()
      ensures (group in old(Objects()) && group.shards in old(Objects())) || (fresh(group) && fresh(group.shards))
      ensures Objects() <= old(Objects()) + {group, group.shards}
    {
      hide Contract, NewGroup, States, ShardGroup.State;
      if h.groupID in groups {
        group := groups[h.groupID];
        StatesAt(groups, h.groupID);
        assert group in Objects() && group.shards in Objects();
      } else {
        group := new ShardGroup(h, now);
        StatesWith(groups, h.groupID, group);
        ObjectsWith(groups, h.groupID, group);
        groups := groups[h.groupID := group];
        totalGroups := totalGroups + 1;
      }
    }

    /** Stores a shard in a group that is not complete. */
    method Deliver(group: ShardGroup, h: ShardHeader, body: Shard) returns (output: Result<Option<Bytes>, ShardError>)
      requires Valid() && h.groupID in groups && group == groups[h.groupID]
      requires !group.completed && h.index as int < group.shards.Length
      modifies this`completedGroups, group, group.shards
      ensures Valid()
      ensures var (g', result) := Attempt(lib, Store(old(group.State()), h.index, body), h.DataShards());
        && output == result
        && State() == old(State()).(groups := old(State()).groups[h.groupID := g'],
                                    completedGroups := old(State()).completedGroups + if g'.completed then 1 else 0)
    {
      hide Contract, Attempt, Store;
      ghost var before := States(groups);
      assert forall i :: i in groups ==> before[i] == groups[i].State();
      hide States;
      output := group.Receive(lib, h.index, body, h.DataShards());
      if group.completed {
        completedGroups := completedGroups + 1;
      }
      StatesChange(groups, before, h.groupID);
    }

    method AddShard(data: Bytes, now: int) returns (output: Result<Option<Bytes>, ShardError>)
      requires Valid()
      modifies this, Objects()
      ensures Valid() && fresh(Objects() - old(Objects()))
      ensures Step(State(), output) == OnShard(lib, old(State()), data, now)
    {
      hide Contract, Attempt, Store, GetUint32, GetUint16, Admit, ShardCollector.State;
      if |data| < HEADER_SIZE {
        return Err(ShardTooShort);
      }
      var h := ParseShardHeader(data).value;
      var group := Lookup(h, now);
      if group.completed {
        return Ok(None);
      }
      if h.index as int >= group.shards.Length {
        return Err(IndexOutOfRange);
      }
      output := Deliver(group, h, data[HEADER_SIZE..]);
    }

    ghost function Stale(now: int): (ids: set<uint32>)
      reads this, groups.Values
      ensures ids <= groups.Keys && forall id :: id in groups ==> (id in ids <==> now - groups[id].created > timeout)
    {
      set id | id in groups && now - groups[id].created > timeout
    }

    ghost function Incomplete(): (ids: set<uint32>)
      reads this, groups.Values
      ensures forall id :: id in groups ==> (id in ids <==> !groups[id].completed)
    {
      set id | id in groups && !groups[id].completed
    }

    /** Drops the groups older than the timeout, counting the incomplete ones as failed. */
    method DropExpired(now: int) returns (count: nat)
      modifies `groups, `failedGroups
      ensures count == |old(Stale(now))| && groups == old(groups) - old(Stale(now))
      ensures failedGroups == old(failedGroups) + |old(Stale(now)) * old(Incomplete())|
    {
      count := 0;
      ghost var all, pending, stale := groups, Incomplete(), Stale(now);
      hide Stale, Incomplete;
      ghost var dropped, failed := {}, {};
      var todo := groups.Keys;
      while todo != {}
        invariant todo <= all.Keys
        invariant forall i :: i in groups <==> i in all && (i in todo || i !in stale)
        invariant forall i :: i in groups ==> groups[i] == all[i]
        invariant forall i :: i in dropped <==> i in stale && i !in todo
        invariant forall i :: i in failed <==> i in dropped && i in pending
        invariant count == |dropped| && failedGroups == old(failedGroups) + |failed|
        decreases todo
      {
        var id :| id in todo;
        todo := todo - {id};
        var group := groups[id];
        if now - group.created > timeout {
          if !group.completed {
            failedGroups := failedGroups + 1;
            failed := failed + {id};
          }
          groups := groups - {id};
          count := count + 1;
          dropped := dropped + {id};
        }
      }
      assert dropped == stale;
      assert failed == stale * pending;
    }

    lemma StaleExpired(now: int)
      ensures Stale(now) == ExpiredIds(State(), now, timeout)
    {
      hide Contract;
      forall id | id in groups ensures State().groups[id].created == groups[id].created {
        StatesAt(groups, id);
      }
    }

    lemma IncompletePending()
      ensures Incomplete() == PendingIds(State())
    {
      hide Contract;
      forall id | id in groups ensures State().groups[id].completed == groups[id].completed {
        StatesAt(groups, id);
      }
    }

    method Cleanup(now: int) returns (count: nat)
      requires Valid()
      modifies `groups, `failedGroups
      ensures Valid() && Objects() <= old(Objects())
      ensures State() == OnCleanup(old(State()), now, timeout)
      ensures count == |ExpiredIds(old(State()), now, timeout)|
    {
      hide Contract;
      ghost var before := State();
      ghost var all, gone, pending := groups, Stale(now), Incomplete();
      StaleExpired(now);
      IncompletePending();
      StatesWithout(all, gone);
      assert ObjectsOf(all - gone) <= Objects();
      assert before.groups == States(all);
      hide Stale, Incomplete, States, ShardGroup.State, ObjectsOf, ExpiredIds, PendingIds;
      count := DropExpired(now);
      assert groups == all - gone && failedGroups == before.failedGroups + |gone * pending|;
      assert State().groups == before.groups - gone;
    }

    method Stats() returns (stats: CollectorStats)
      requires Valid()
      ensures stats == CollectorStats(|PendingIds(State())|, completedGroups, failedGroups, totalGroups)
    {
      hide Contract;
      var pending := 0;
      var todo := groups.Keys;
      ghost var seen := {};
      while todo != {}
        invariant todo <= groups.Keys
        invariant seen == PendingIds(State()) - todo
        invariant pending == |seen|
        decreases todo
      {
        var id :| id in todo;
        todo := todo - {id};
        assert State().groups[id] == groups[id].State();
        if !groups[id].completed {
          pending := pending + 1;
          seen := seen + {id};
        }
      }
      return CollectorStats(pending, completedGroups, failedGroups, totalGroups);
    }
  }
}
