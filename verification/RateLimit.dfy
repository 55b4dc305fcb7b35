/** The token bucket (internal/buffer/ratelimit.go), over the reals, with the clock as an input in seconds. */
module RateLimit {

  datatype Bucket = Bucket(tokens: real, maxTokens: real, refillRate: real, lastRefill: real) {
    predicate Valid() {
      0.0 <= tokens <= maxTokens && refillRate >= 0.0
    }
  }

  /** The tokens a rate supplies in some time. */
  function Supply(rate: real, elapsed: real): real { elapsed * rate }

  lemma SupplyAdds(rate: real, a: real, b: real)
    ensures Supply(rate, a) + Supply(rate, b) == Supply(rate, a + b)
  {}

  lemma SupplyGrows(rate: real, a: real, b: real)
    requires rate >= 0.0 && a <= b
    ensures Supply(rate, a) <= Supply(rate, b)
  {
    assert (b - a) * rate >= 0.0;
    assert b * rate - a * rate == (b - a) * rate;
  }

  function MinReal(a: real, b: real): real { if a < b then a else b }

  function Refill(b: Bucket, now: real): Bucket {
    b.(tokens := MinReal(b.tokens + Supply(b.refillRate, now - b.lastRefill), b.maxTokens), lastRefill := now)
  }

  function Taken(b: Bucket, n: real, now: real): (Bucket, bool) {
    var r := Refill(b, now);
    if r.tokens >= n then (r.(tokens := r.tokens - n), true) else (r, false)
  }

  /** One call of Take. */
  datatype Call = Call(n: real, now: real)

  predicate Ordered(from: real, calls: seq<Call>)
    decreases calls
  {
    calls != [] ==> from <= calls[0].now && calls[0].n >= 0.0 && Ordered(calls[0].now, calls[1..])
  }

  function After(b: Bucket, calls: seq<Call>): Bucket
    decreases calls
  {
    if calls == [] then b else After(Taken(b, calls[0].n, calls[0].now).0, calls[1..])
  }

  /** The tokens granted over a sequence of calls. */
  function Granted(b: Bucket, calls: seq<Call>): real
    decreases calls
  {
    if calls == [] then 0.0
    else
      var (b', ok) := Taken(b, calls[0].n, calls[0].now);
      (if ok then calls[0].n else 0.0) + Granted(b', calls[1..])
  }

  lemma TakenValid(b: Bucket, n: real, now: real)
    requires b.Valid() && n >= 0.0 && b.lastRefill <= now
    ensures var (b', ok) := Taken(b, n, now);
      && b'.Valid() && b'.maxTokens == b.maxTokens && b'.refillRate == b.refillRate && b'.lastRefill == now
      && b'.tokens + (if ok then n else 0.0) <= b.tokens + Supply(b.refillRate, now - b.lastRefill)
      && b'.tokens + (if ok then n else 0.0) <= b.maxTokens
  {
    SupplyGrows(b.refillRate, 0.0, now - b.lastRefill);
  }

  /** What is granted, together with what is left, never exceeds what there was and what was refilled. */
  lemma {:induction false} Conservation(b: Bucket, calls: seq<Call>)
    requires b.Valid() && Ordered(b.lastRefill, calls)
    ensures var b' := After(b, calls);
      && b'.Valid() && b'.maxTokens == b.maxTokens && b'.refillRate == b.refillRate && b.lastRefill <= b'.lastRefill
      && (calls != [] ==> b'.lastRefill == calls[|calls| - 1].now)
      && Granted(b, calls) + b'.tokens <= b.tokens + Supply(b.refillRate, b'.lastRefill - b.lastRefill)
    decreases calls
  {
    hide Supply, Taken;
    if calls == [] {
      assert Supply(b.refillRate, 0.0) == 0.0 by { SupplyAdds(b.refillRate, 0.0, 0.0); }
    } else {
      var (b1, ok) := Taken(b, calls[0].n, calls[0].now);
      TakenValid(b, calls[0].n, calls[0].now);
      Conservation(b1, calls[1..]);
      var b2 := After(b1, calls[1..]);
      SupplyAdds(b.refillRate, b1.lastRefill - b.lastRefill, b2.lastRefill - b1.lastRefill);
    }
  }

  /** What the refills over a sequence of calls bring beyond the capacity. */
  function Spilt(b: Bucket, calls: seq<Call>): real
    decreases calls
  {
    if calls == [] then 0.0
    else
      var full := b.tokens + Supply(b.refillRate, calls[0].now - b.lastRefill);
      (if full > b.maxTokens then full - b.maxTokens else 0.0) + Spilt(Taken(b, calls[0].n, calls[0].now).0, calls[1..])
  }

  /** The capacity never cuts off a refill. */
  predicate NeverFull(b: Bucket, calls: seq<Call>)
    decreases calls
  {
    calls != [] ==>
      && b.tokens + Supply(b.refillRate, calls[0].now - b.lastRefill) <= b.maxTokens
      && NeverFull(Taken(b, calls[0].n, calls[0].now).0, calls[1..])
  }

  /** The books balance: what there was and what was refilled is what is granted, what is left, and what ran over. */
  lemma {:induction false} Balance(b: Bucket, calls: seq<Call>)
    ensures var b' := After(b, calls);
      Granted(b, calls) + b'.tokens + Spilt(b, calls) == b.tokens + Supply(b.refillRate, b'.lastRefill - b.lastRefill)
    ensures Spilt(b, calls) >= 0.0 && (Spilt(b, calls) == 0.0 <==> NeverFull(b, calls))
    decreases calls
  {
    if calls == [] {
      assert Supply(b.refillRate, 0.0) == 0.0 by { SupplyAdds(b.refillRate, 0.0, 0.0); }
    } else {
      var b1 := Taken(b, calls[0].n, calls[0].now).0;
      Balance(b1, calls[1..]);
      SupplyAdds(b.refillRate, b1.lastRefill - b.lastRefill, After(b1, calls[1..]).lastRefill - b1.lastRefill);
      hide Supply;
    }
  }

  /** A grant costs what it grants and nothing is lost, exactly as long as the capacity never cuts off a refill. */
  lemma ConservedExactly(b: Bucket, calls: seq<Call>)
    ensures var b' := After(b, calls);
      Granted(b, calls) + b'.tokens == b.tokens + Supply(b.refillRate, b'.lastRefill - b.lastRefill) <==> NeverFull(b, calls)
  {
    Balance(b, calls);
  }

  function Asked(calls: seq<Call>): real {
    if calls == [] then 0.0 else calls[0].n + Asked(calls[1..])
  }

  /** Requests made together are granted in full if together they ask for no more than is at hand, and take just that. */
  lemma {:induction false} GrantedTogether(b: Bucket, calls: seq<Call>, now: real)
    requires b.Valid() && b.lastRefill <= now && Ordered(now, calls)
    requires forall i :: 0 <= i < |calls| ==> calls[i].now == now
    requires var hand := MinReal(b.tokens + Supply(b.refillRate, now - b.lastRefill), b.maxTokens); Asked(calls) <= hand
    ensures Granted(b, calls) == Asked(calls)
    ensures calls != [] ==>
      After(b, calls).tokens == MinReal(b.tokens + Supply(b.refillRate, now - b.lastRefill), b.maxTokens) - Asked(calls)
    decreases calls
  {
    if calls != [] {
      assert forall i :: 0 <= i < |calls| - 1 ==> calls[1..][i] == calls[i + 1];
      AskedPositive(now, calls[1..]);
      TakenValid(b, calls[0].n, now);
      var b1 := Taken(b, calls[0].n, now).0;
      assert Supply(b1.refillRate, now - b1.lastRefill) == 0.0 by { SupplyAdds(b1.refillRate, 0.0, 0.0); }
      hide Supply;
      GrantedTogether(b1, calls[1..], now);
    }
  }

  lemma {:induction false} AskedPositive(from: real, calls: seq<Call>)
    requires Ordered(from, calls)
    ensures Asked(calls) >= 0.0
    decreases calls
  {
    if calls != [] {
      AskedPositive(calls[0].now, calls[1..]);
    }
  }

  lemma {:induction false} SplitRun(b: Bucket, calls: seq<Call>, i: nat)
    requires i <= |calls| && Ordered(b.lastRefill, calls)
    ensures Ordered(b.lastRefill, calls[..i])
    ensures Ordered(After(b, calls[..i]).lastRefill, calls[i..])
    decreases calls
  {
    if i > 0 {
      var b1 := Taken(b, calls[0].n, calls[0].now).0;
      SplitRun(b1, calls[1..], i - 1);
      assert calls[..i][1..] == calls[1..][..i - 1];
      assert calls[i..] == calls[1..][i - 1..];
    } else {
      assert calls[0..] == calls;
    }
  }

  lemma {:induction false} OrderedPrefix(from: real, calls: seq<Call>, j: nat)
    requires j <= |calls| && Ordered(from, calls)
    ensures Ordered(from, calls[..j])
    decreases calls
  {
    if j > 0 {
      assert calls[..j][1..] == calls[1..][..j - 1];
      OrderedPrefix(calls[0].now, calls[1..], j - 1);
    }
  }

  /** The bound on any nonempty stretch of calls, from the first to the last of them. */
  lemma StretchBound(b: Bucket, calls: seq<Call>)
    requires b.Valid() && Ordered(b.lastRefill, calls) && calls != []
    ensures Granted(b, calls) <= b.maxTokens + Supply(b.refillRate, calls[|calls| - 1].now - calls[0].now)
  {
    hide Supply, Taken;
    var first := calls[0];
    var (b1, ok) := Taken(b, first.n, first.now);
    TakenValid(b, first.n, first.now);
    Conservation(b1, calls[1..]);
    assert b1.lastRefill == first.now;
    if |calls| > 1 {
      assert calls[1..][|calls| - 2] == calls[|calls| - 1];
    }
    assert After(b1, calls[1..]).lastRefill == calls[|calls| - 1].now;
  }

  /** In every run, over every window between two calls, the tokens granted are at most the capacity of the
      bucket and what is refilled between the two. */
  lemma RateBound(b: Bucket, calls: seq<Call>, i: nat, j: nat)
    requires b.Valid() && Ordered(b.lastRefill, calls) && i < j <= |calls|
    ensures Granted(After(b, calls[..i]), calls[i..j]) <= b.maxTokens + Supply(b.refillRate, calls[j - 1].now - calls[i].now)
  {
    hide Supply, After, Granted, Taken;
    SplitRun(b, calls, i);
    Conservation(b, calls[..i]);
    OrderedPrefix(After(b, calls[..i]).lastRefill, calls[i..], j - i);
    assert calls[i..][..j - i] == calls[i..j];
    StretchBound(After(b, calls[..i]), calls[i..j]);
  }

  // Uploads: bytes are counted when their packet has gone out, some time after their tokens were granted, if at all

  datatype Upload = Upload(call: Call, counted: CountTime)

  datatype CountTime = Never | At(time: real)

  predicate Causal(ups: seq<Upload>) {
    forall i :: 0 <= i < |ups| && ups[i].counted.At? ==> ups[i].call.now <= ups[i].counted.time
  }

  function Calls(ups: seq<Upload>): (calls: seq<Call>)
    ensures |calls| == |ups|
  {
    if ups == [] then [] else [ups[0].call] + Calls(ups[1..])
  }

  predicate CountedBy(u: Upload, time: real) {
    u.counted.At? && u.counted.time <= time
  }

  /** The bytes counted up to a time. */
  function Uploaded(b: Bucket, ups: seq<Upload>, time: real): real
    decreases ups
  {
    if ups == [] then 0.0
    else
      var (b', ok) := Taken(b, ups[0].call.n, ups[0].call.now);
      (if ok && CountedBy(ups[0], time) then ups[0].call.n else 0.0) + Uploaded(b', ups[1..], time)
  }

  /** The bytes granted up to a time and not counted by then. */
  function Pending(b: Bucket, ups: seq<Upload>, time: real): real
    decreases ups
  {
    if ups == [] then 0.0
    else
      var (b', ok) := Taken(b, ups[0].call.n, ups[0].call.now);
      (if ok && ups[0].call.now <= time && !CountedBy(ups[0], time) then ups[0].call.n else 0.0) + Pending(b', ups[1..], time)
  }

  /** The tokens granted after one time and up to another. */
  function GrantedIn(b: Bucket, ups: seq<Upload>, from: real, to: real): real
    decreases ups
  {
    if ups == [] then 0.0
    else
      var (b', ok) := Taken(b, ups[0].call.n, ups[0].call.now);
      (if ok && from < ups[0].call.now <= to then ups[0].call.n else 0.0) + GrantedIn(b', ups[1..], from, to)
  }

  /** Nothing is granted in a window that is over. */
  lemma {:induction false} GrantedLater(b: Bucket, ups: seq<Upload>, from: real, to: real)
    requires Ordered(b.lastRefill, Calls(ups)) && b.lastRefill > to
    ensures GrantedIn(b, ups, from, to) == 0.0
    decreases ups
  {
    if ups != [] {
      assert Calls(ups)[1..] == Calls(ups[1..]);
      GrantedLater(Taken(b, ups[0].call.n, ups[0].call.now).0, ups[1..], from, to);
    }
  }

  /** From the start of a window on: tokens left and tokens granted are covered by what there was and the refill. */
  lemma {:induction false} GrantedSince(b: Bucket, ups: seq<Upload>, from: real, to: real)
    requires b.Valid() && Ordered(b.lastRefill, Calls(ups)) && from <= b.lastRefill <= to
    ensures GrantedIn(b, ups, from, to) <= b.tokens + Supply(b.refillRate, to - b.lastRefill)
    decreases ups
  {
    SupplyGrows(b.refillRate, 0.0, to - b.lastRefill);
    if ups != [] {
      var call := ups[0].call;
      assert Calls(ups)[1..] == Calls(ups[1..]);
      var (b1, ok) := Taken(b, call.n, call.now);
      TakenValid(b, call.n, call.now);
      if call.now > to {
        GrantedLater(b1, ups[1..], from, to);
      } else {
        SupplyAdds(b.refillRate, call.now - b.lastRefill, to - call.now);
        hide Supply, Taken;
        GrantedSince(b1, ups[1..], from, to);
      }
    }
  }

  /** The tokens granted in a window are at most the capacity and the refill in the window. */
  lemma {:induction false} GrantedWindow(b: Bucket, ups: seq<Upload>, from: real, to: real)
    requires b.Valid() && Ordered(b.lastRefill, Calls(ups)) && from <= to
    ensures GrantedIn(b, ups, from, to) <= b.maxTokens + Supply(b.refillRate, to - from)
    decreases ups
  {
    SupplyGrows(b.refillRate, 0.0, to - from);
    if ups != [] {
      var call := ups[0].call;
      assert Calls(ups)[1..] == Calls(ups[1..]);
      var (b1, ok) := Taken(b, call.n, call.now);
      TakenValid(b, call.n, call.now);
      if call.now > to {
        GrantedLater(b1, ups[1..], from, to);
      } else if call.now <= from {
        GrantedWindow(b1, ups[1..], from, to);
      } else {
        GrantedSince(b1, ups[1..], from, to);
        SupplyGrows(b.refillRate, to - call.now, to - from);
      }
    }
  }

  /** What is counted in a window was pending at its start or is granted in it. */
  lemma {:induction false} UploadedFrom(b: Bucket, ups: seq<Upload>, from: real, to: real)
    requires Causal(ups) && Ordered(b.lastRefill, Calls(ups)) && from <= to
    ensures Uploaded(b, ups, to) - Uploaded(b, ups, from) <= Pending(b, ups, from) + GrantedIn(b, ups, from, to)
    decreases ups
  {
    if ups != [] {
      assert Calls(ups)[1..] == Calls(ups[1..]);
      assert forall i :: 0 <= i < |ups[1..]| ==> ups[1..][i] == ups[i + 1];
      UploadedFrom(Taken(b, ups[0].call.n, ups[0].call.now).0, ups[1..], from, to);
      hide Taken;
    }
  }

  /** What the bucket holds at a time. */
  function TokensAt(b: Bucket, ups: seq<Upload>, time: real): real
    decreases ups
  {
    if ups == [] || ups[0].call.now > time then Refill(b, time).tokens
    else TokensAt(Taken(b, ups[0].call.n, ups[0].call.now).0, ups[1..], time)
  }

  lemma RefillTwice(b: Bucket, now: real, later: real)
    requires b.Valid() && b.lastRefill <= now <= later
    ensures Refill(b, now).Valid() && Refill(Refill(b, now), later) == Refill(b, later)
  {
    SupplyGrows(b.refillRate, 0.0, now - b.lastRefill);
    SupplyGrows(b.refillRate, 0.0, later - now);
    SupplyAdds(b.refillRate, now - b.lastRefill, later - now);
    hide Supply;
  }

  /** The tokens granted in a window are at most what the bucket holds at its start and the refill in it. */
  lemma {:induction false} GrantedFromTokens(b: Bucket, ups: seq<Upload>, from: real, to: real)
    requires b.Valid() && Ordered(b.lastRefill, Calls(ups)) && b.lastRefill <= from <= to
    ensures GrantedIn(b, ups, from, to) <= TokensAt(b, ups, from) + Supply(b.refillRate, to - from)
    decreases ups
  {
    SupplyGrows(b.refillRate, 0.0, to - from);
    RefillTwice(b, from, from);
    if ups != [] {
      var call := ups[0].call;
      assert Calls(ups)[1..] == Calls(ups[1..]);
      if call.now <= from {
        TakenValid(b, call.n, call.now);
        GrantedFromTokens(Taken(b, call.n, call.now).0, ups[1..], from, to);
      } else {
        RefillTwice(b, from, call.now);
        GrantedSince(Refill(b, from), ups, from, to);
      }
    }
  }

  /** In every run, for every window of counting time: the bytes counted in it are at most what was granted and still
      uncounted when it began, what the bucket held then (never more than its capacity), and what is refilled in it. */
  lemma UploadBound(b: Bucket, ups: seq<Upload>, from: real, to: real)
    requires b.Valid() && Causal(ups) && Ordered(b.lastRefill, Calls(ups)) && from <= to
    ensures b.lastRefill <= from ==>
      Uploaded(b, ups, to) - Uploaded(b, ups, from) <= Pending(b, ups, from) + TokensAt(b, ups, from) + Supply(b.refillRate, to - from)
    ensures Uploaded(b, ups, to) - Uploaded(b, ups, from) <= Pending(b, ups, from) + b.maxTokens + Supply(b.refillRate, to - from)
  {
    hide Supply, Taken;
    UploadedFrom(b, ups, from, to);
    GrantedWindow(b, ups, from, to);
    if b.lastRefill <= from {
      GrantedFromTokens(b, ups, from, to);
    }
  }

  // When the plain bound holds

  predicate IsWhole(n: real) {
    n.Floor as real == n
  }

  /** A run that goes on from a time as the past allows: what was counted by then stays counted, what was not is counted
      later or never, and further calls follow, each for a whole number of bytes if that is asked. */
  predicate Continues(past: seq<Upload>, ups: seq<Upload>, from: real, whole: bool) {
    && |past| <= |ups| && Causal(ups)
    && (forall i :: 0 <= i < |past| ==>
          && ups[i].call == past[i].call
          && if CountedBy(past[i], from) then ups[i] == past[i] else !CountedBy(ups[i], from))
    && (forall i :: |past| <= i < |ups| ==> ups[i].call.now >= from && (whole ==> IsWhole(ups[i].call.n)))
  }

  /** In every such run no window from here on counts more than the capacity and its own refill. */
  ghost predicate KeepsBound(b: Bucket, past: seq<Upload>, from: real, whole: bool) {
    forall ups, to :: Continues(past, ups, from, whole) && Ordered(b.lastRefill, Calls(ups)) && from <= to ==>
      Uploaded(b, ups, to) - Uploaded(b, ups, from) <= b.maxTokens + Supply(b.refillRate, to - from)
  }

  ghost predicate Past(b: Bucket, past: seq<Upload>, from: real) {
    && b.Valid() && b.lastRefill <= from && Ordered(b.lastRefill, Calls(past))
    && forall i :: 0 <= i < |past| ==> past[i].call.now <= from
  }

  /** Calls from that time on only turn tokens into pending bytes. */
  lemma {:induction false} LaterCalls(b: Bucket, ups: seq<Upload>, from: real)
    requires b.Valid() && b.lastRefill <= from && Ordered(b.lastRefill, Calls(ups))
    requires forall i :: 0 <= i < |ups| ==> ups[i].call.now >= from
    ensures Pending(b, ups, from) + TokensAt(b, ups, from) <= Refill(b, from).tokens
    decreases ups
  {
    if ups != [] {
      var call := ups[0].call;
      assert Calls(ups)[1..] == Calls(ups[1..]);
      assert forall i :: 0 <= i < |ups[1..]| ==> ups[1..][i] == ups[i + 1];
      var (b1, ok) := Taken(b, call.n, call.now);
      TakenValid(b, call.n, call.now);
      if call.now == from {
        LaterCalls(b1, ups[1..], from);
        RefillTwice(b1, from, from);
        assert Supply(b1.refillRate, 0.0) == 0.0;
      } else {
        NothingPending(b1, ups[1..], from);
      }
    }
  }

  lemma {:induction false} NothingPending(b: Bucket, ups: seq<Upload>, from: real)
    requires b.lastRefill > from && Ordered(b.lastRefill, Calls(ups))
    ensures Pending(b, ups, from) == 0.0
    decreases ups
  {
    if ups != [] {
      assert Calls(ups)[1..] == Calls(ups[1..]);
      NothingPending(Taken(b, ups[0].call.n, ups[0].call.now).0, ups[1..], from);
    }
  }

  /** What a continuation has pending and at hand is at most what the past has. */
  lemma {:induction false} ContinuesFrom(b: Bucket, past: seq<Upload>, ups: seq<Upload>, from: real, whole: bool)
    requires Past(b, past, from) && Continues(past, ups, from, whole) && Ordered(b.lastRefill, Calls(ups))
    ensures Pending(b, ups, from) + TokensAt(b, ups, from) <= Pending(b, past, from) + TokensAt(b, past, from)
    decreases past
  {
    if past == [] {
      LaterCalls(b, ups, from);
    } else {
      var call := past[0].call;
      assert Calls(ups)[1..] == Calls(ups[1..]) && Calls(past)[1..] == Calls(past[1..]);
      assert forall i :: 0 <= i < |ups[1..]| ==> ups[1..][i] == ups[i + 1];
      assert forall i :: 0 <= i < |past[1..]| ==> past[1..][i] == past[i + 1];
      TakenValid(b, call.n, call.now);
      assert CountedBy(ups[0], from) <==> CountedBy(past[0], from);
      ContinuesFrom(Taken(b, call.n, call.now).0, past[1..], ups[1..], from, whole);
      hide Taken;
    }
  }

  /** Everything pending is counted at a time, and one more call is granted and counted at that very time. */
  function Burst(past: seq<Upload>, from: real, n: real, time: real): (ups: seq<Upload>)
    ensures |ups| == |past| + 1
  {
    if past == [] then [Upload(Call(n, time), At(time))]
    else [if CountedBy(past[0], from) then past[0] else past[0].(counted := At(time))] + Burst(past[1..], from, n, time)
  }

  lemma {:induction false} BurstIs(past: seq<Upload>, from: real, n: real, time: real)
    ensures forall i :: 0 <= i < |past| ==>
      Burst(past, from, n, time)[i] == if CountedBy(past[i], from) then past[i] else past[i].(counted := At(time))
    ensures Burst(past, from, n, time)[|past|] == Upload(Call(n, time), At(time))
    decreases past
  {
    if past != [] {
      BurstIs(past[1..], from, n, time);
    }
  }

  lemma {:induction false} BurstOrdered(b: Bucket, past: seq<Upload>, start: real, from: real, n: real, time: real)
    requires Ordered(start, Calls(past)) && start <= time && n >= 0.0
    requires forall i :: 0 <= i < |past| ==> past[i].call.now <= time
    ensures Ordered(start, Calls(Burst(past, from, n, time)))
    decreases past
  {
    if past == [] {
      assert Calls(Burst(past, from, n, time)) == [Call(n, time)] + Calls([]);
      assert Ordered(time, []);
    } else {
      assert Calls(past)[1..] == Calls(past[1..]);
      assert forall i :: 0 <= i < |past[1..]| ==> past[1..][i] == past[i + 1];
      BurstOrdered(b, past[1..], past[0].call.now, from, n, time);
      var ups := Burst(past, from, n, time);
      assert ups[1..] == Burst(past[1..], from, n, time) && ups[0].call == past[0].call;
      assert Calls(ups)[1..] == Calls(ups[1..]);
    }
  }

  lemma {:induction false} BurstCounts(b: Bucket, past: seq<Upload>, from: real, n: real, time: real)
    requires Past(b, past, from) && Causal(past) && from < time && 0.0 <= n <= TokensAt(b, past, time)
    ensures Uploaded(b, Burst(past, from, n, time), time) - Uploaded(b, Burst(past, from, n, time), from)
         == Pending(b, past, from) + n
    decreases past
  {
    var ups := Burst(past, from, n, time);
    if past == [] {
      assert ups[1..] == [];
    } else {
      var call := past[0].call;
      assert Calls(past)[1..] == Calls(past[1..]);
      assert forall i :: 0 <= i < |past[1..]| ==> past[1..][i] == past[i + 1];
      assert ups[1..] == Burst(past[1..], from, n, time);
      TakenValid(b, call.n, call.now);
      BurstCounts(Taken(b, call.n, call.now).0, past[1..], from, n, time);
      hide Taken, TokensAt;
    }
  }

  /** The tokens at hand some time later, when no further call is made. */
  lemma {:induction false} TokensLater(b: Bucket, past: seq<Upload>, from: real, time: real)
    requires Past(b, past, from) && from <= time
    ensures TokensAt(b, past, time) == MinReal(TokensAt(b, past, from) + Supply(b.refillRate, time - from), b.maxTokens)
    ensures 0.0 <= TokensAt(b, past, from) <= b.maxTokens
    decreases past
  {
    RefillTwice(b, from, time);
    if past != [] {
      var call := past[0].call;
      assert Calls(past)[1..] == Calls(past[1..]);
      assert forall i :: 0 <= i < |past[1..]| ==> past[1..][i] == past[i + 1];
      TakenValid(b, call.n, call.now);
      TokensLater(Taken(b, call.n, call.now).0, past[1..], from, time);
    }
  }

  lemma BurstBreaks(b: Bucket, past: seq<Upload>, from: real, n: real, wait: real, whole: bool)
    requires Past(b, past, from) && Causal(past) && wait > 0.0 && n >= 0.0 && (whole ==> IsWhole(n))
    requires n <= MinReal(TokensAt(b, past, from) + Supply(b.refillRate, wait), b.maxTokens)
    requires Pending(b, past, from) + n > b.maxTokens + Supply(b.refillRate, wait)
    ensures !KeepsBound(b, past, from, whole)
  {
    var time := from + wait;
    var ups := Burst(past, from, n, time);
    TokensLater(b, past, from, time);
    BurstIs(past, from, n, time);
    BurstOrdered(b, past, b.lastRefill, from, n, time);
    BurstCounts(b, past, from, n, time);
    assert time - from == wait;
    hide Pending, TokensAt, Uploaded, Burst, Supply, Ordered;
    BurstContinues(past, ups, from, n, time, whole);
  }

  lemma BurstContinues(past: seq<Upload>, ups: seq<Upload>, from: real, n: real, time: real, whole: bool)
    requires Causal(past) && from < time && (whole ==> IsWhole(n)) && |ups| == |past| + 1
    requires forall i :: 0 <= i < |past| ==> past[i].call.now <= from
    requires forall i :: 0 <= i < |past| ==>
      ups[i] == if CountedBy(past[i], from) then past[i] else past[i].(counted := At(time))
    requires ups[|past|] == Upload(Call(n, time), At(time))
    ensures Continues(past, ups, from, whole)
  {
  }

  lemma KeptWhenLittle(b: Bucket, past: seq<Upload>, from: real, whole: bool)
    requires Past(b, past, from) && Pending(b, past, from) + TokensAt(b, past, from) <= b.maxTokens
    ensures KeepsBound(b, past, from, whole)
  {
    hide Pending, TokensAt, Uploaded, Supply;
    forall ups, to | Continues(past, ups, from, whole) && Ordered(b.lastRefill, Calls(ups)) && from <= to
      ensures Uploaded(b, ups, to) - Uploaded(b, ups, from) <= b.maxTokens + Supply(b.refillRate, to - from)
    {
      ContinuesFrom(b, past, ups, from, whole);
      UploadBound(b, ups, from, to);
    }
  }

  lemma RoundUp(tokens: real, capacity: real) returns (n: real)
    requires 0.0 <= tokens <= capacity && IsWhole(capacity)
    ensures IsWhole(n) && tokens <= n <= capacity
  {
    n := if IsWhole(tokens) then tokens else (tokens.Floor + 1) as real;
    assert tokens.Floor <= capacity.Floor;
    assert !IsWhole(tokens) ==> tokens.Floor != capacity.Floor || tokens < capacity;
  }

  lemma ShortWait(rate: real, amount: real) returns (wait: real)
    requires rate > 0.0 && amount > 0.0
    ensures wait > 0.0 && Supply(rate, wait) == amount
  {
    wait := amount / rate;
    PositiveFactor(wait, rate);
  }

  /** From a moment on, every run keeps the plain bound over every window from there exactly when what is granted and
      still uncounted at that moment, with what the bucket holds, is at most its capacity. */
  lemma BoundKeptExactly(b: Bucket, past: seq<Upload>, from: real)
    requires Past(b, past, from) && Causal(past)
    ensures KeepsBound(b, past, from, false) <==> Pending(b, past, from) + TokensAt(b, past, from) <= b.maxTokens
  {
    var tokens, excess := TokensAt(b, past, from), Pending(b, past, from) + TokensAt(b, past, from) - b.maxTokens;
    if excess <= 0.0 {
      KeptWhenLittle(b, past, from, false);
    } else {
      TokensLater(b, past, from, from);
      var wait := 1.0;
      if b.refillRate > 0.0 {
        wait := ShortWait(b.refillRate, excess / 2.0);
      }
      assert 0.0 <= Supply(b.refillRate, wait) < excess;
      BurstBreaks(b, past, from, tokens, wait, false);
    }
  }

  /** The same holds when only whole numbers of bytes can be asked for, as the tunnel does: its capacity is a whole number
      and its rate is positive. */
  lemma BoundKeptWhole(b: Bucket, past: seq<Upload>, from: real)
    requires Past(b, past, from) && Causal(past) && IsWhole(b.maxTokens) && b.refillRate > 0.0
    ensures KeepsBound(b, past, from, true) <==> Pending(b, past, from) + TokensAt(b, past, from) <= b.maxTokens
  {
    var tokens, excess := TokensAt(b, past, from), Pending(b, past, from) + TokensAt(b, past, from) - b.maxTokens;
    if excess <= 0.0 {
      KeptWhenLittle(b, past, from, true);
    } else {
      TokensLater(b, past, from, from);
      hide Supply, Pending, TokensAt, Ordered;
      var n := RoundUp(tokens, b.maxTokens);
      var wait := ShortWait(b.refillRate, n - tokens + excess / 2.0);
      BurstBreaks(b, past, from, n, wait, true);
    }
  }

  lemma {:induction false} UploadedGranted(b: Bucket, ups: seq<Upload>, from: real, to: real)
    requires Causal(ups) && Ordered(b.lastRefill, Calls(ups)) && from < b.lastRefill
    ensures Uploaded(b, ups, to) <= GrantedIn(b, ups, from, to)
    decreases ups
  {
    if ups != [] {
      assert Calls(ups)[1..] == Calls(ups[1..]);
      assert forall i :: 0 <= i < |ups[1..]| ==> ups[1..][i] == ups[i + 1];
      UploadedGranted(Taken(b, ups[0].call.n, ups[0].call.now).0, ups[1..], from, to);
    }
  }

  /** From the start on the bound needs no correction: the bytes counted by any time are at most what the bucket held at
      first and what was refilled since. */
  lemma UploadedInAll(b: Bucket, ups: seq<Upload>, time: real)
    requires b.Valid() && Causal(ups) && Ordered(b.lastRefill, Calls(ups)) && b.lastRefill <= time
    ensures Uploaded(b, ups, time) <= b.tokens + Supply(b.refillRate, time - b.lastRefill)
  {
    UploadedGranted(b, ups, b.lastRefill - 1.0, time);
    GrantedSince(b, ups, b.lastRefill - 1.0, time);
  }

  /** The plain bound fails of some runs: with a bucket of any capacity and rate, a packet whose send blocks while the bucket
      fills up again and the packet after it are counted at the same instant, twice the capacity in no time. */
  lemma BurstAtOnce(maxTokens: real, refillRate: real) returns (b: Bucket, ups: seq<Upload>, time: real)
    requires maxTokens > 0.0 && refillRate > 0.0
    ensures b.Valid() && b.maxTokens == maxTokens && b.refillRate == refillRate
    ensures Causal(ups) && Ordered(b.lastRefill, Calls(ups))
    ensures forall from :: 0.0 < from < time ==> Uploaded(b, ups, time) - Uploaded(b, ups, from) == maxTokens + maxTokens
  {
    b := Bucket(maxTokens, maxTokens, refillRate, 0.0);
    time := maxTokens / refillRate;
    var first, second := Upload(Call(maxTokens, 0.0), At(time)), Upload(Call(maxTokens, time), At(time));
    ups := [first, second];
    assert time * refillRate == maxTokens && time > 0.0;
    assert ups[1..] == [second] && [second][1..] == [];
    var b1 := Taken(b, maxTokens, 0.0).0;
    assert b1 == Bucket(0.0, maxTokens, refillRate, 0.0);
    assert Taken(b1, maxTokens, time).1;
    assert Calls(ups) == [first.call, second.call] by {
      assert Calls([second]) == [second.call] + Calls([second][1..]);
    }
    assert [first.call, second.call][1..] == [second.call] && [second.call][1..] == [];
    assert Ordered(time, []) && Ordered(0.0, [second.call]);
    TwoUploads(b, first, second, time);
    forall from | 0.0 < from < time ensures Uploaded(b, ups, time) - Uploaded(b, ups, from) == maxTokens + maxTokens {
      TwoUploads(b, first, second, from);
    }
  }

  lemma TwoUploads(b: Bucket, first: Upload, second: Upload, time: real)
    requires var (b1, ok) := Taken(b, first.call.n, first.call.now); ok && Taken(b1, second.call.n, second.call.now).1
    ensures Uploaded(b, [first, second], time)
         == (if CountedBy(first, time) then first.call.n else 0.0) + (if CountedBy(second, time) then second.call.n else 0.0)
  {
    var b1 := Taken(b, first.call.n, first.call.now).0;
    assert [first, second][1..] == [second] && [second][1..] == [];
    assert Uploaded(b1, [second], time) == (if CountedBy(second, time) then second.call.n else 0.0);
  }

  /** A request for more than the bucket holds is never granted. */
  lemma {:induction false} TooMuchNever(b: Bucket, calls: seq<Call>)
    requires b.Valid() && Ordered(b.lastRefill, calls)
    requires forall i :: 0 <= i < |calls| ==> calls[i].n > b.maxTokens
    ensures Granted(b, calls) == 0.0
    decreases calls
  {
    if calls != [] {
      TakenValid(b, calls[0].n, calls[0].now);
      TooMuchNever(Taken(b, calls[0].n, calls[0].now).0, calls[1..]);
    }
  }

  const NAP := 0.01

  class TokenBucket {
    var tokens: real
    const maxTokens: real
    const refillRate: real
    var lastRefill: real

    function State(): Bucket
      reads this
    {
      Bucket(tokens, maxTokens, refillRate, lastRefill)
    }

    constructor (maxTokens: real, refillRate: real, now: real)
      ensures State() == Bucket(maxTokens, maxTokens, refillRate, now)
    {
      this.tokens, this.maxTokens, this.refillRate, this.lastRefill := maxTokens, maxTokens, refillRate, now;
    }

    method RefillNow(now: real)
      modifies this
      ensures State() == Refill(old(State()), now)
      ensures tokens == MinReal(old(tokens) + (now - old(lastRefill)) * refillRate, maxTokens) && lastRefill == now
    {
      var elapsed := now - lastRefill;
      lastRefill := now;
      tokens := tokens + elapsed * refillRate;
      if tokens > maxTokens {
        tokens := maxTokens;
      }
    }

    method Take(n: real, now: real) returns (ok: bool)
      modifies this
      ensures (State(), ok) == Taken(old(State()), n, now)
      ensures var hand := MinReal(old(tokens) + (now - old(lastRefill)) * refillRate, maxTokens);
        ok == (n <= hand) && tokens == (if ok then hand - n else hand) && lastRefill == now
    {
      hide Supply, MinReal;
      RefillNow(now);
      if tokens >= n {
        tokens := tokens - n;
        return true;
      }
      return false;
    }

    method Available(now: real) returns (available: real)
      modifies this
      ensures State() == Refill(old(State()), now) && available == tokens
      ensures available == MinReal(old(tokens) + (now - old(lastRefill)) * refillRate, maxTokens) && lastRefill == now
    {
      RefillNow(now);
      return tokens;
    }

    /** Takes n tokens, sleeping between attempts for at least the nap each time. With a positive rate and n within the
        capacity it returns, after no more sleeps than it takes to refill what was missing at the first attempt. */
    method TakeWait(n: real, start: real, sleeps: nat -> real) returns (retries: nat, end: real)
      requires State().Valid() && 0.0 <= n <= maxTokens && refillRate > 0.0 && lastRefill <= start
      requires forall i :: sleeps(i) >= 0.01
      modifies this
      ensures State().Valid() && lastRefill == end >= start + retries as real * 0.01
      ensures var missing := n - Refill(old(State()), start).tokens;
        if missing <= 0.0 then retries == 0 else Supply(refillRate, (retries as real - 1.0) * 0.01) < missing
      ensures tokens == MinReal(old(tokens) + Supply(refillRate, end - old(lastRefill)), maxTokens) - n
    {
      hide Supply;
      retries, end := 0, start;
      ghost var first := Refill(State(), start).tokens;
      ghost var limit := if first >= n then 0 else Limit(refillRate, n - first);
      TakenValid(State(), n, start);
      SupplyAdds(refillRate, 0.0, 0.0);
      SupplyNegative(refillRate);
      ghost var before := State();
      var ok := Take(n, end);
      while !ok
        invariant State().Valid() && lastRefill == end >= start + retries as real * NAP
        invariant !ok ==> first < n && tokens < n && tokens >= first + Supply(refillRate, retries as real * NAP)
        invariant if first >= n then ok && retries == 0 else Supply(refillRate, (retries as real - 1.0) * NAP) < n - first
        invariant State() == Refill(before, end).(tokens := Refill(before, end).tokens - if ok then n else 0.0)
        decreases !ok, limit - retries
      {
        RetriesBelow(refillRate, retries, n - first);
        var later := end + sleeps(retries);
        ghost var gained := Supply(refillRate, later - end);
        TakenValid(State(), n, later);
        SupplyGrows(refillRate, NAP, later - end);
        SupplyAdds(refillRate, retries as real * NAP, NAP);
        RefillTwice(before, end, later);
        end := later;
        retries := retries + 1;
        ok := Take(n, end);
      }
    }
  }

  lemma SupplyNegative(rate: real)
    requires rate > 0.0
    ensures Supply(rate, (0.0 - 1.0) * NAP) < 0.0
  {}

  /** More naps than it takes to refill what is missing. */
  function Limit(rate: real, missing: real): int
    requires rate > 0.0
  {
    (missing / (NAP * rate)).Floor + 1
  }

  lemma RetriesBelow(rate: real, retries: nat, missing: real)
    requires rate > 0.0 && Supply(rate, retries as real * NAP) < missing
    ensures retries < Limit(rate, missing)
  {
    var step := NAP * rate;
    var q := missing / step;
    assert q * step == missing;
    assert Supply(rate, retries as real * NAP) == retries as real * step;
    assert (q - retries as real) * step == missing - retries as real * step;
    PositiveFactor(q - retries as real, step);
  }

  lemma PositiveFactor(a: real, b: real)
    requires b > 0.0 && a * b > 0.0
    ensures a > 0.0
  {}
}
