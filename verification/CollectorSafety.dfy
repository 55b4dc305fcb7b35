/** What the collector keeps whatever bytes the network delivers and whenever Cleanup runs. */
module CollectorSafety {
  import opened Basics
  import opened ErasureCode
  import opened Fec
  import opened Shards

  datatype Event = Arrive(data: Bytes, now: int) | Sweep(now: int)

  type Output = Result<Option<Bytes>, ShardError>

  function Next(lib: Library, timeout: int, c: Collector, e: Event): Step {
    match e
    case Arrive(data, now) => OnShard(lib, c, data, now)
    case Sweep(now) => Step(OnCleanup(c, now, timeout), Ok(None))
  }

  function Run(lib: Library, timeout: int, c: Collector, events: seq<Event>): Collector
    decreases events
  {
    if events == [] then c else Run(lib, timeout, Next(lib, timeout, c, events[0]).after, events[1..])
  }

  function Outputs(lib: Library, timeout: int, c: Collector, events: seq<Event>): (outputs: seq<Output>)
    ensures |outputs| == |events|
    decreases events
  {
    if events == [] then []
    else
      var step := Next(lib, timeout, c, events[0]);
      [step.output] + Outputs(lib, timeout, step.after, events[1..])
  }

  // The state invariant

  function CountStored(shards: seq<Option<Shard>>): (n: nat)
    ensures n <= |shards|
  {
    if shards == [] then 0 else (if shards[0].Some? then 1 else 0) + CountStored(shards[1..])
  }

  ghost predicate GoodGroup(g: Group) {
    g.received <= CountStored(g.shards) && |g.shards| <= 255
  }

  /** Every group ever created is pending, completed or failed, and no group claims shards it does not hold. */
  ghost predicate Good(c: Collector) {
    && c.totalGroups == c.completedGroups + c.failedGroups + |PendingIds(c)|
    && forall id :: id in c.groups ==> c.groups[id].groupID == id && GoodGroup(c.groups[id])
  }

  lemma {:induction false} StoredGrows(a: seq<Option<Shard>>, b: seq<Option<Shard>>)
    requires |a| == |b| && forall i :: 0 <= i < |a| ==> a[i].Some? ==> b[i].Some?
    ensures CountStored(a) <= CountStored(b)
  {
    if a != [] {
      StoredGrows(a[1..], b[1..]);
    }
  }

  lemma {:induction false} StoredOneMore(a: seq<Option<Shard>>, i: nat, s: Shard)
    requires i < |a| && a[i].None?
    ensures CountStored(a[i := Some(s)]) == CountStored(a) + 1
  {
    if i > 0 {
      assert a[i := Some(s)][1..] == a[1..][i - 1 := Some(s)];
      StoredOneMore(a[1..], i - 1, s);
    } else {
      assert a[0 := Some(s)][1..] == a[1..];
    }
  }

  lemma AttemptGood(lib: Library, g: Group, index: nat, body: Shard, k: int)
    requires Contract(lib) && GoodGroup(g) && !g.completed && index < |g.shards|
    ensures var (g', output) := Attempt(lib, Store(g, index, body), k);
      && GoodGroup(g') && g'.groupID == g.groupID && g'.created == g.created
      && (g'.completed <==> output.Ok? && output.value.Some?)
  {
    if g.shards[index].None? {
      StoredOneMore(g.shards, index, body);
    }
    var g1 := Store(g, index, body);
    if k >= 0 {
      DecodeKeeps(lib, k, g.parity, g1.shards, g1.dataLen);
      StoredGrows(g1.shards, DecodeShards(lib, k, g.parity, g1.shards, g1.dataLen).shards);
    }
  }

  lemma AdmitGood(c: Collector, h: ShardHeader, now: int)
    requires Good(c)
    ensures Good(Admit(c, h, now))
  {
    var c' := Admit(c, h, now);
    if h.groupID !in c.groups {
      assert PendingIds(c') == PendingIds(c) + {h.groupID};
    }
  }

  /** Replacing a pending group moves it out of the pending ones exactly when it has completed. */
  lemma PendingAfter(c: Collector, id: uint32, g: Group)
    requires id in c.groups && !c.groups[id].completed
    ensures |PendingIds(c.(groups := c.groups[id := g]))| == |PendingIds(c)| - if g.completed then 1 else 0
  {
    var after := PendingIds(c.(groups := c.groups[id := g]));
    if g.completed {
      assert after == PendingIds(c) - {id};
    } else {
      assert after == PendingIds(c);
    }
  }

  lemma ShardKeepsGood(lib: Library, c: Collector, data: Bytes, now: int)
    requires Contract(lib) && Good(c)
    ensures Good(OnShard(lib, c, data, now).after)
  {
    hide Contract, Attempt, Store, Admit, PendingIds, GoodGroup;
    match ParseShardHeader(data)
    case Err(_) =>
    case Ok(h) =>
      AdmitGood(c, h, now);
      var c1 := Admit(c, h, now);
      var g := c1.groups[h.groupID];
      if !g.completed && h.index as int < |g.shards| {
        AttemptGood(lib, g, h.index, data[HEADER_SIZE..], h.DataShards());
        var g' := Attempt(lib, Store(g, h.index, data[HEADER_SIZE..]), h.DataShards()).0;
        PendingAfter(c1, h.groupID, g');
        PendingCongruent(c1.(groups := c1.groups[h.groupID := g']), OnShard(lib, c, data, now).after);
      }
  }

  lemma PendingCongruent(a: Collector, b: Collector)
    requires a.groups == b.groups
    ensures PendingIds(a) == PendingIds(b)
  {}

  lemma CleanupKeepsGood(c: Collector, now: int, timeout: int)
    requires Good(c)
    ensures Good(OnCleanup(c, now, timeout))
  {
    var gone := ExpiredIds(c, now, timeout);
    assert PendingIds(OnCleanup(c, now, timeout)) == PendingIds(c) - gone * PendingIds(c);
  }

  /** In every state reached from the empty collector, by any bytes in any interleaving with Cleanup,
      the counters add up and no group has received more than it holds. */
  lemma {:induction false} RunKeepsGood(lib: Library, timeout: int, c: Collector, events: seq<Event>)
    requires Contract(lib) && Good(c)
    ensures Good(Run(lib, timeout, c, events))
    decreases events
  {
    if events != [] {
      match events[0] {
        case Arrive(data, now) => ShardKeepsGood(lib, c, data, now);
        case Sweep(now) => CleanupKeepsGood(c, now, timeout);
      }
      hide Good, OnShard, OnCleanup;
      RunKeepsGood(lib, timeout, Next(lib, timeout, c, events[0]).after, events[1..]);
    }
  }

  // Deliveries

  predicate Delivers(e: Event, o: Output, id: uint32) {
    && e.Arrive? && ParseShardHeader(e.data).Ok? && ParseShardHeader(e.data).value.groupID == id
    && o.Ok? && o.value.Some?
  }

  function Deliveries(events: seq<Event>, outputs: seq<Output>, id: uint32): nat
    requires |events| == |outputs|
  {
    if events == [] then 0
    else (if Delivers(events[0], outputs[0], id) then 1 else 0) + Deliveries(events[1..], outputs[1..], id)
  }

  /** How often Cleanup removed a group with this id during the run. */
  function Removals(lib: Library, timeout: int, c: Collector, events: seq<Event>, id: uint32): nat
    decreases events
  {
    if events == [] then 0
    else
      var after := Next(lib, timeout, c, events[0]).after;
      (if id in c.groups && id !in after.groups then 1 else 0) + Removals(lib, timeout, after, events[1..], id)
  }

  function Done(c: Collector, id: uint32): nat {
    if id in c.groups && c.groups[id].completed then 1 else 0
  }

  lemma StepDelivers(lib: Library, timeout: int, c: Collector, e: Event, id: uint32)
    requires Contract(lib) && Good(c)
    ensures var step := Next(lib, timeout, c, e);
      var delivered := if Delivers(e, step.output, id) then 1 else 0;
      var removed := if id in c.groups && id !in step.after.groups then 1 else 0;
      && delivered + Done(c, id) <= Done(step.after, id) + removed
  {
    match e
    case Sweep(_) =>
    case Arrive(data, now) =>
      hide Contract, Attempt, Store;
      match ParseShardHeader(data)
      case Err(_) =>
      case Ok(h) =>
        AdmitGood(c, h, now);
        var c1 := Admit(c, h, now);
        var g := c1.groups[h.groupID];
        if !g.completed && h.index as int < |g.shards| {
          AttemptGood(lib, g, h.index, data[HEADER_SIZE..], h.DataShards());
        }
  }

  /** A group is delivered at most once in each of its lifetimes: over any run, an id is delivered at most
      once more than Cleanup has removed it, and not at all before its first removal if it was complete at the start. */
  lemma {:induction false} AtMostOncePerLifetime(lib: Library, timeout: int, c: Collector, events: seq<Event>, id: uint32)
    requires Contract(lib) && Good(c)
    ensures Deliveries(events, Outputs(lib, timeout, c, events), id) + Done(c, id)
         <= Done(Run(lib, timeout, c, events), id) + Removals(lib, timeout, c, events, id)
    decreases events
  {
    if events != [] {
      StepDelivers(lib, timeout, c, events[0], id);
      RunKeepsGood(lib, timeout, c, [events[0]]);
      var after := Next(lib, timeout, c, events[0]).after;
      assert Run(lib, timeout, after, []) == after;
      hide Next, Good, Done, Delivers;
      AtMostOncePerLifetime(lib, timeout, after, events[1..], id);
    }
  }

  // What a group keeps

  /** A later state of the same group: what its first shard said of it stays, no shard is taken away or replaced, and once it
      is complete nothing changes. */
  ghost predicate Extends(g: Group, g': Group) {
    && g'.groupID == g.groupID && g'.dataLen == g.dataLen && g'.parity == g.parity && g'.created == g.created
    && g'.timestamp == g.timestamp && |g'.shards| == |g.shards| && g.received <= g'.received
    && (forall i :: 0 <= i < |g.shards| && g.shards[i].Some? ==> g'.shards[i].Some?)
    && (forall i :: 0 <= i < |g.shards| && Present(g.shards[i]) ==> g'.shards[i] == g.shards[i])
    && (g.completed ==> g' == g)
  }

  lemma AttemptExtends(lib: Library, g: Group, index: nat, body: Shard, k: int)
    requires Contract(lib) && !g.completed && index < |g.shards|
    ensures Extends(g, Attempt(lib, Store(g, index, body), k).0)
  {
    var g1 := Store(g, index, body);
    if k >= 0 {
      DecodeKeeps(lib, k, g.parity, g1.shards, g1.dataLen);
    }
    hide Contract, DecodeShards;
  }

  /** A step leaves a group with a later state of itself, unless it is a Cleanup that finds it too old. */
  lemma StepExtends(lib: Library, timeout: int, c: Collector, e: Event, id: uint32)
    requires Contract(lib) && id in c.groups
    ensures var after := Next(lib, timeout, c, e).after;
      && (id in after.groups <==> !(e.Sweep? && e.now - c.groups[id].created > timeout))
      && (id in after.groups ==> Extends(c.groups[id], after.groups[id]))
  {
    hide Contract, Attempt, Store;
    if e.Arrive? && ParseShardHeader(e.data).Ok? {
      var h := ParseShardHeader(e.data).value;
      var g := c.groups[id];
      if h.groupID == id && !g.completed && h.index as int < |g.shards| {
        AttemptExtends(lib, g, h.index, e.data[HEADER_SIZE..], h.DataShards());
      }
    }
    hide ParseShardHeader, Admit;
  }

  lemma ExtendsOn(a: Group, b: Group, c: Group)
    requires Extends(a, b) && Extends(b, c)
    ensures Extends(a, c)
  {
    forall i | 0 <= i < |a.shards| && Present(a.shards[i]) ensures c.shards[i] == a.shards[i] {
      assert b.shards[i] == a.shards[i];
    }
  }

  /** In every lifetime of a group, for arbitrary bytes: the first shard at an index stays, whatever arrives there later, and
      the counts and the length are those of the first header. */
  lemma {:induction false} RunExtends(lib: Library, timeout: int, c: Collector, events: seq<Event>, id: uint32)
    requires Contract(lib) && id in c.groups && Removals(lib, timeout, c, events, id) == 0
    ensures id in Run(lib, timeout, c, events).groups && Extends(c.groups[id], Run(lib, timeout, c, events).groups[id])
    decreases events
  {
    if events != [] {
      var after := Next(lib, timeout, c, events[0]).after;
      StepExtends(lib, timeout, c, events[0], id);
      hide Contract, Extends, Next;
      RunExtends(lib, timeout, after, events[1..], id);
      ExtendsOn(c.groups[id], after.groups[id], Run(lib, timeout, after, events[1..]).groups[id]);
    }
  }
}
