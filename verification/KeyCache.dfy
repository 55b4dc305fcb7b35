/** The packet builder's key cache under any interleaving of its calls (internal/protocol/builder.go): getAEAD loads and
    then stores, DecryptPacket tries three windows one after another, and CleanupAEADCache ranges over the cache and
    deletes. Any goroutine may stop between two of these steps, and the wall clock may step back.
 */
module KeyCache {
  import opened Basics
  import opened Packets
  import opened Envelope

  /** What a call has to do: seal in its window, or open under the first of the windows left to try. */
  datatype Job =
    | Sealing(packet: Packet, nonce: Bytes, window: int)
    | Opening(data: Bytes, current: int, windows: seq<int>)
  {
    /** The window whose key comes next. */
    function Key(): int
      requires Opening? ==> windows != []
    {
      if Sealing? then window else windows[0]
    }
  }

  /** A finished call, with the clock readings it made. */
  datatype Answer =
    | Sealed(packet: Packet, nonce: Bytes, window: int, stamped: nat, bytes: Bytes)
    | Opened(data: Bytes, current: int, result: Result<Packet, PacketError>)

  /** Where a goroutine is between two steps. */
  datatype Thread =
    | Idle
    | Looking(job: Job)           // about to load the key
    | Missed(job: Job)            // the cache had none: about to store the derived key
    | Keyed(job: Job, key: AEAD)  // about to use the key
    | Cleaning(current: int)      // CleanupAEADCache has read the clock,
    | Sweeping(current: int, todo: set<nat>)  // and its Range has begun: it will not miss these entries
    | Returned(answer: Answer)

  /** An entry keeps its serial number for as long as its key stays in the cache. */
  datatype Entry = Entry(key: AEAD, serial: nat)

  /** The latest window any call has read is not part of the program. */
  datatype State = State(cache: map<int, Entry>, stores: nat, latest: int, threads: seq<Thread>)

  datatype Move =
    | BeginSeal(packet: Packet, nonce: Bytes) | BeginOpen(data: Bytes) | BeginClean
    | Load | Store | Use
    | Survey | Sweep(window: int) | Finish

  /** A step of a goroutine, and what the clock shows if the step reads it. */
  datatype Action = Action(thread: nat, move: Move, now: nat)

  function Start(n: nat, latest: int): State {
    State(map[], 0, latest, seq(n, _ => Idle))
  }

  predicate Free(t: Thread) {
    t.Idle? || t.Returned?
  }

  predicate HasKey(job: Job) {
    job.Opening? ==> job.windows != [] && |job.data| >= HEADER_SIZE
  }

  function Serials(cache: map<int, Entry>): (serials: set<nat>)
    ensures forall w :: w in cache ==> cache[w].serial in serials
  {
    set w | w in cache :: cache[w].serial
  }

  predicate Enabled(s: State, a: Action) {
    && a.thread < |s.threads|
    && var here := s.threads[a.thread];
       match a.move
       case BeginSeal(_, _) => Free(here)
       case BeginOpen(_) => Free(here)
       case BeginClean => Free(here)
       case Load => here.Looking? && HasKey(here.job)
       case Store => here.Missed? && HasKey(here.job)
       case Use => here.Keyed? && HasKey(here.job)
       case Survey => here.Cleaning?
       case Sweep(w) => here.Sweeping? && w in s.cache
       case Finish => here.Sweeping? && forall w :: w in s.cache ==> s.cache[w].serial !in here.todo
  }

  /** What a call does with its key. The header of a sealed packet is stamped by a clock reading of its own. */
  function Used(secret: Secret, job: Job, key: AEAD, now: nat): Thread
    requires HasKey(job) && |secret.userID| == 4
  {
    match job
    case Sealing(packet, nonce, window) =>
      Returned(Sealed(packet, nonce, window, now,
                      PacketHeader(secret.userID, now % 0x1_0000).Serialize()
                      + key.EncryptPacket(secret.crypto, packet.Serialize(), nonce)))
    case Opening(data, current, windows) =>
      match key.DecryptPacket(secret.crypto, data[HEADER_SIZE..])
      case Some(plaintext) => Returned(Opened(data, current, secret.Parsed(data, Some(plaintext))))
      case None =>
        if |windows| == 1 then Returned(Opened(data, current, Err(DecryptionFailed)))
        else Looking(Opening(data, current, windows[1..]))
  }

  function Begun(secret: Secret, move: Move, now: nat): Thread
    requires secret.timeWindow > 0 && (move.BeginSeal? || move.BeginOpen? || move.BeginClean?)
  {
    var window := Window(now, secret.timeWindow);
    match move
    case BeginSeal(packet, nonce) => Looking(Sealing(packet, nonce, window))
    case BeginOpen(data) =>
      if |data| < HEADER_SIZE + NONCE_SIZE + TAG_SIZE then Returned(Opened(data, window, Err(PacketTooShort)))
      else Looking(Opening(data, window, Around(window)))
    case BeginClean => Cleaning(window)
  }

  predicate Reads(move: Move) {
    move.BeginSeal? || move.BeginOpen? || move.BeginClean?
  }

  /** Where the acting goroutine is after its step. */
  function Goes(secret: Secret, s: State, a: Action): Thread
    requires secret.timeWindow > 0 && |secret.userID| == 4 && Enabled(s, a)
  {
    var here := s.threads[a.thread];
    match a.move
    case Load =>
      var w := here.job.Key();
      if w in s.cache then Keyed(here.job, s.cache[w].key) else Missed(here.job)
    case Store => Keyed(here.job, secret.Aead(here.job.Key()))
    case Use => Used(secret, here.job, here.key, a.now)
    case Survey => Sweeping(here.current, Serials(s.cache))
    case Sweep(w) => Sweeping(here.current, here.todo - {s.cache[w].serial})
    case Finish => Idle
    case _ => Begun(secret, a.move, a.now)
  }

  function Cache(secret: Secret, s: State, a: Action): map<int, Entry>
    requires Enabled(s, a)
  {
    var here := s.threads[a.thread];
    match a.move
    case Store =>
      var w := here.job.Key();
      s.cache[w := Entry(secret.Aead(w), if w in s.cache then s.cache[w].serial else s.stores + 1)]
    case Sweep(w) => if here.current - w > 2 then s.cache - {w} else s.cache
    case _ => s.cache
  }

  function Next(secret: Secret, s: State, a: Action): State
    requires secret.timeWindow > 0 && |secret.userID| == 4 && Enabled(s, a)
  {
    State(
      Cache(secret, s, a),
      if a.move.Store? then s.stores + 1 else s.stores,
      if Reads(a.move) then Max(s.latest, Window(a.now, secret.timeWindow)) else s.latest,
      s.threads[a.thread := Goes(secret, s, a)])
  }

  ghost predicate Run(secret: Secret, s: State, schedule: seq<Action>)
    requires secret.timeWindow > 0 && |secret.userID| == 4
    decreases schedule
  {
    schedule != [] ==> Enabled(s, schedule[0]) && Run(secret, Next(secret, s, schedule[0]), schedule[1..])
  }

  ghost function After(secret: Secret, s: State, schedule: seq<Action>): State
    requires secret.timeWindow > 0 && |secret.userID| == 4 && Run(secret, s, schedule)
    decreases schedule
  {
    if schedule == [] then s else After(secret, Next(secret, s, schedule[0]), schedule[1..])
  }

  // Transparency

  /** The windows left are the last of the three, and opening under them is opening under all three. */
  predicate SoundJob(secret: Secret, job: Job) {
    job.Opening? ==>
      && 1 <= |job.windows| <= 3 && job.windows == Around(job.current)[3 - |job.windows|..]
      && |job.data| >= HEADER_SIZE + NONCE_SIZE + TAG_SIZE
      && secret.OpenWith(job.windows, job.data[HEADER_SIZE..]) == secret.OpenWith(Around(job.current), job.data[HEADER_SIZE..])
  }

  predicate Right(secret: Secret, answer: Answer)
    requires |secret.userID| == 4
  {
    match answer
    case Sealed(packet, nonce, window, stamped, bytes) => bytes == secret.SealIn(packet, window, stamped, nonce)
    case Opened(data, current, result) => result == secret.OpenIn(data, current)
  }

  predicate SoundThread(secret: Secret, t: Thread)
    requires |secret.userID| == 4
  {
    match t
    case Looking(job) => SoundJob(secret, job)
    case Missed(job) => SoundJob(secret, job)
    case Keyed(job, key) => SoundJob(secret, job) && key == secret.Aead(job.Key())
    case Returned(answer) => Right(secret, answer)
    case _ => true
  }

  predicate Distinct(cache: map<int, Entry>) {
    forall v, w :: v in cache && w in cache && cache[v].serial == cache[w].serial ==> v == w
  }

  /** Every cached key is the derived one, and every answer is what the secret and the clock readings alone determine. */
  ghost predicate Transparent(secret: Secret, s: State)
    requires |secret.userID| == 4
  {
    && (forall w :: w in s.cache ==> s.cache[w].key == secret.Aead(w) && s.cache[w].serial <= s.stores)
    && Distinct(s.cache)
    && (forall t :: 0 <= t < |s.threads| ==> SoundThread(secret, s.threads[t]))
  }

  lemma UsedSound(secret: Secret, job: Job, key: AEAD, now: nat)
    requires |secret.userID| == 4 && SoundJob(secret, job) && key == secret.Aead(job.Key())
    ensures SoundThread(secret, Used(secret, job, key, now))
  {
    if job.Opening? {
      var part := job.data[HEADER_SIZE..];
      assert secret.OpenWith(job.windows, part)
          == match key.DecryptPacket(secret.crypto, part) case Some(p) => Some(p) case None => secret.OpenWith(job.windows[1..], part);
      assert |job.windows| == 1 ==> secret.OpenWith(job.windows[1..], part) == None;
      assert |job.windows| > 1 ==> job.windows[1..] == Around(job.current)[3 - (|job.windows| - 1)..];
    }
  }

  lemma GoesSound(secret: Secret, s: State, a: Action)
    requires secret.timeWindow > 0 && |secret.userID| == 4 && Transparent(secret, s) && Enabled(s, a)
    ensures SoundThread(secret, Goes(secret, s, a))
  {
    var here := s.threads[a.thread];
    if a.move.Use? {
      UsedSound(secret, here.job, here.key, a.now);
    } else if a.move.BeginOpen? {
      assert Around(Window(a.now, secret.timeWindow))[0..] == Around(Window(a.now, secret.timeWindow));
    }
  }

  lemma StepTransparent(secret: Secret, s: State, a: Action)
    requires secret.timeWindow > 0 && |secret.userID| == 4 && Transparent(secret, s) && Enabled(s, a)
    ensures Transparent(secret, Next(secret, s, a))
  {
    GoesSound(secret, s, a);
    hide Goes, SoundThread;
  }

  /** In every interleaving, with any clock: the results of all calls are independent of the cache, of each other and of
      every cleanup in between. */
  lemma {:induction false} RunTransparent(secret: Secret, s: State, schedule: seq<Action>)
    requires secret.timeWindow > 0 && |secret.userID| == 4 && Transparent(secret, s) && Run(secret, s, schedule)
    ensures Transparent(secret, After(secret, s, schedule))
    decreases schedule
  {
    if schedule != [] {
      StepTransparent(secret, s, schedule[0]);
      hide Transparent, Next, Enabled;
      RunTransparent(secret, Next(secret, s, schedule[0]), schedule[1..]);
    }
  }

  lemma StartTransparent(secret: Secret, n: nat, latest: int)
    requires |secret.userID| == 4
    ensures Transparent(secret, Start(n, latest)) && Bounded(Start(n, latest))
  {
  }

  /** Every answer a goroutine has got, whatever the others did meanwhile, is what secret and clock readings determine. */
  lemma AnswersRight(secret: Secret, n: nat, latest: int, schedule: seq<Action>, t: nat)
    requires secret.timeWindow > 0 && |secret.userID| == 4 && Run(secret, Start(n, latest), schedule)
    requires var end := After(secret, Start(n, latest), schedule); t < |end.threads| && end.threads[t].Returned?
    ensures Right(secret, After(secret, Start(n, latest), schedule).threads[t].answer)
  {
    StartTransparent(secret, n, latest);
    RunTransparent(secret, Start(n, latest), schedule);
    assert SoundThread(secret, After(secret, Start(n, latest), schedule).threads[t]);
  }

  // The range of the keys

  /** The window a call began in. */
  function BeganIn(job: Job): int {
    if job.Sealing? then job.window else job.current
  }

  predicate BoundedThread(t: Thread, latest: int) {
    match t
    case Looking(job) => BeganIn(job) <= latest
    case Missed(job) => BeganIn(job) <= latest
    case Keyed(job, _) => BeganIn(job) <= latest
    case _ => true
  }

  /** No key and no call reaches beyond the window after the latest reading. */
  ghost predicate Bounded(s: State) {
    && (forall w :: w in s.cache ==> w <= s.latest + 1)
    && (forall t :: 0 <= t < |s.threads| ==> BoundedThread(s.threads[t], s.latest))
  }

  lemma KeyBounded(secret: Secret, job: Job)
    requires SoundJob(secret, job)
    ensures job.Key() <= BeganIn(job) + 1
  {
    hide Secret.OpenWith;
  }

  lemma GoesBounded(secret: Secret, s: State, a: Action)
    requires secret.timeWindow > 0 && |secret.userID| == 4 && Enabled(s, a) && BoundedThread(s.threads[a.thread], s.latest)
    ensures BoundedThread(Goes(secret, s, a), Next(secret, s, a).latest) && Next(secret, s, a).latest >= s.latest
  {
    hide Secret.Parsed, AEAD.DecryptPacket, AEAD.EncryptPacket, Window, Cache;
  }

  lemma StepBounded(secret: Secret, s: State, a: Action)
    requires secret.timeWindow > 0 && |secret.userID| == 4 && Transparent(secret, s) && Bounded(s) && Enabled(s, a)
    ensures Bounded(Next(secret, s, a))
  {
    GoesBounded(secret, s, a);
    if a.move.Store? {
      assert SoundThread(secret, s.threads[a.thread]);
      KeyBounded(secret, s.threads[a.thread].job);
    }
    hide Transparent, SoundThread, SoundJob, Goes, Window;
  }

  /** A call that would store a key below the floor: the one it is after, or the next one if this one does not fit. */
  predicate StaleCall(secret: Secret, t: Thread, floor: int)
    requires |secret.userID| == 4
  {
    match t
    case Looking(job) => HasKey(job) && job.Key() < floor
    case Missed(job) => HasKey(job) && job.Key() < floor
    case Keyed(job, key) =>
      && HasKey(job) && job.Opening? && |job.windows| > 1 && job.windows[1] < floor
      && key.DecryptPacket(secret.crypto, job.data[HEADER_SIZE..]).None?
    case _ => false
  }

  predicate NoStaleCall(secret: Secret, s: State, floor: int)
    requires |secret.userID| == 4
  {
    forall u :: 0 <= u < |s.threads| ==> !StaleCall(secret, s.threads[u], floor)
  }

  predicate Sweeps(t: Thread) {
    t.Cleaning? || t.Sweeping?
  }

  predicate AllAbove(s: State, floor: int) {
    forall w :: w in s.cache ==> w >= floor
  }

  /** What is below the floor is still to be deleted by goroutine t. */
  ghost predicate Doomed(s: State, t: nat, floor: int)
    requires t < |s.threads|
  {
    forall w :: w in s.cache && w < floor ==>
      match s.threads[t]
      case Cleaning(current) => current >= floor + 2
      case Sweeping(current, todo) => current >= floor + 2 && s.cache[w].serial in todo
      case _ => false
  }

  /** The windows are tried in increasing order. */
  lemma NextKey(secret: Secret, job: Job)
    requires SoundJob(secret, job) && job.Opening? && |job.windows| > 1
    ensures job.windows[1] == job.Key() + 1
  {
    hide Secret.OpenWith;
  }

  lemma KeyedNotStale(secret: Secret, job: Job, key: AEAD, floor: int)
    requires |secret.userID| == 4 && SoundJob(secret, job) && job.Key() >= floor
    ensures !StaleCall(secret, Keyed(job, key), floor)
  {
    if job.Opening? && |job.windows| > 1 {
      NextKey(secret, job);
    }
    hide SoundJob, AEAD.DecryptPacket;
  }

  lemma UsedNotStale(secret: Secret, job: Job, key: AEAD, now: nat, floor: int)
    requires |secret.userID| == 4 && HasKey(job) && !StaleCall(secret, Keyed(job, key), floor)
    ensures !StaleCall(secret, Used(secret, job, key, now), floor)
  {
    hide AEAD.DecryptPacket, AEAD.EncryptPacket, Secret.Parsed;
  }

  lemma BegunNotStale(secret: Secret, move: Move, now: nat, floor: int)
    requires secret.timeWindow > 0 && |secret.userID| == 4 && Reads(move) && Window(now, secret.timeWindow) >= floor + 2
    ensures !StaleCall(secret, Begun(secret, move, now), floor)
  {
    hide Window;
  }

  lemma GoesNotStale(secret: Secret, s: State, a: Action, floor: int)
    requires secret.timeWindow > 0 && |secret.userID| == 4 && Enabled(s, a)
    requires SoundThread(secret, s.threads[a.thread]) && !StaleCall(secret, s.threads[a.thread], floor)
    requires Window(a.now, secret.timeWindow) >= floor + 2
    ensures !StaleCall(secret, Goes(secret, s, a), floor)
  {
    var here := s.threads[a.thread];
    hide SoundJob, Right, Window, Used, Begun;
    if a.move.Use? {
      UsedNotStale(secret, here.job, here.key, a.now, floor);
    } else if a.move.Load? || a.move.Store? {
      var there := Goes(secret, s, a);
      if there.Keyed? {
        KeyedNotStale(secret, here.job, there.key, floor);
      }
    } else if Reads(a.move) {
      BegunNotStale(secret, a.move, a.now, floor);
    }
  }

  lemma StepNoStaleCall(secret: Secret, s: State, a: Action, floor: int)
    requires secret.timeWindow > 0 && |secret.userID| == 4 && Transparent(secret, s) && Enabled(s, a)
    requires NoStaleCall(secret, s, floor) && Window(a.now, secret.timeWindow) >= floor + 2
    ensures NoStaleCall(secret, Next(secret, s, a), floor)
  {
    hide Goes, SoundThread, StaleCall;
    GoesNotStale(secret, s, a, floor);
  }

  lemma StepDoomed(secret: Secret, s: State, t: nat, a: Action, floor: int)
    requires secret.timeWindow > 0 && |secret.userID| == 4 && Transparent(secret, s) && Enabled(s, a) && t < |s.threads|
    requires NoStaleCall(secret, s, floor) && Doomed(s, t, floor) && Window(a.now, secret.timeWindow) >= floor + 2
    ensures Doomed(Next(secret, s, a), t, floor)
  {
    assert !StaleCall(secret, s.threads[a.thread], floor);
    hide NoStaleCall, SoundThread;
  }

  /** No reading of the clock shows less than this. */
  predicate NotBefore(schedule: seq<Action>, now: nat) {
    forall i :: 0 <= i < |schedule| ==> schedule[i].now >= now
  }

  lemma {:induction false} RunDoomed(secret: Secret, s: State, t: nat, schedule: seq<Action>, now: nat)
    requires secret.timeWindow > 0 && |secret.userID| == 4 && Transparent(secret, s) && Run(secret, s, schedule) && t < |s.threads|
    requires NotBefore(schedule, now)
    requires var floor := Window(now, secret.timeWindow) - 2; NoStaleCall(secret, s, floor) && Doomed(s, t, floor)
    ensures var end := After(secret, s, schedule);
      |end.threads| == |s.threads| && Doomed(end, t, Window(now, secret.timeWindow) - 2)
    decreases schedule
  {
    if schedule != [] {
      var a, floor := schedule[0], Window(now, secret.timeWindow) - 2;
      WindowGap(a.now, now, secret.timeWindow);
      StepTransparent(secret, s, a);
      StepNoStaleCall(secret, s, a, floor);
      StepDoomed(secret, s, t, a, floor);
      assert |Next(secret, s, a).threads| == |s.threads|;
      hide Transparent, NoStaleCall, Doomed, Next, Enabled, Window;
      RunDoomed(secret, Next(secret, s, a), t, schedule[1..], now);
    }
  }

  lemma {:induction false} RunBounded(secret: Secret, s: State, schedule: seq<Action>)
    requires secret.timeWindow > 0 && |secret.userID| == 4 && Transparent(secret, s) && Bounded(s) && Run(secret, s, schedule)
    ensures Bounded(After(secret, s, schedule))
    decreases schedule
  {
    if schedule != [] {
      StepTransparent(secret, s, schedule[0]);
      StepBounded(secret, s, schedule[0]);
      hide Transparent, Bounded, Next, Enabled;
      RunBounded(secret, Next(secret, s, schedule[0]), schedule[1..]);
    }
  }

  /** Whatever goroutine t's cleanup, begun at a reading of the clock, leaves behind once it has ended: every run from
      there in which the clock never shows less. */
  ghost predicate CleansUp(secret: Secret, s: State, t: nat, now: nat)
    requires secret.timeWindow > 0 && |secret.userID| == 4
    requires Enabled(s, Action(t, BeginClean, now))
  {
    var begun := Next(secret, s, Action(t, BeginClean, now));
    forall schedule ::
      Run(secret, begun, schedule) && NotBefore(schedule, now)
      && |After(secret, begun, schedule).threads| > t && !Sweeps(After(secret, begun, schedule).threads[t]) ==>
        AllAbove(After(secret, begun, schedule), Window(now, secret.timeWindow) - 2)
  }

  lemma CleansUpIf(secret: Secret, s: State, t: nat, now: nat)
    requires secret.timeWindow > 0 && |secret.userID| == 4 && Transparent(secret, s)
    requires Enabled(s, Action(t, BeginClean, now))
    requires NoStaleCall(secret, s, Window(now, secret.timeWindow) - 2)
    ensures CleansUp(secret, s, t, now)
  {
    var a := Action(t, BeginClean, now);
    var begun := Next(secret, s, a);
    StepTransparent(secret, s, a);
    StepNoStaleCall(secret, s, a, Window(now, secret.timeWindow) - 2);
    assert Doomed(begun, t, Window(now, secret.timeWindow) - 2);
    hide Transparent, NoStaleCall, Next, Window;
    forall schedule |
      Run(secret, begun, schedule) && NotBefore(schedule, now)
      && |After(secret, begun, schedule).threads| > t && !Sweeps(After(secret, begun, schedule).threads[t])
      ensures AllAbove(After(secret, begun, schedule), Window(now, secret.timeWindow) - 2)
    {
      RunDoomed(secret, begun, t, schedule, now);
    }
  }

  lemma Member<T>(s: set<T>) returns (x: T)
    requires s != {}
    ensures x in s
  {
    x :| x in s;
  }

  lemma {:induction false} RangeSize(keys: set<int>, lo: int, hi: int)
    requires lo <= hi + 1 && forall w :: w in keys ==> lo <= w <= hi
    ensures |keys| <= hi - lo + 1
    decreases hi - lo + 1
  {
    if keys != {} {
      var w := Member(keys);
      RangeSize(keys - {hi}, lo, hi - 1);
      assert hi !in keys ==> keys - {hi} == keys;
    }
  }

  /** Once a cleanup with no stale call in flight has ended, the keys lie between two windows before its own and one
      after the latest reading; so there are at most four as long as nobody has read a later window. */
  lemma KeysAfterCleanup(secret: Secret, s: State, t: nat, now: nat, schedule: seq<Action>)
    requires secret.timeWindow > 0 && |secret.userID| == 4 && Transparent(secret, s) && Bounded(s)
    requires Enabled(s, Action(t, BeginClean, now))
    requires NoStaleCall(secret, s, Window(now, secret.timeWindow) - 2)
    requires Run(secret, Next(secret, s, Action(t, BeginClean, now)), schedule) && NotBefore(schedule, now)
    requires var end := After(secret, Next(secret, s, Action(t, BeginClean, now)), schedule);
      t < |end.threads| && !Sweeps(end.threads[t])
    ensures var end := After(secret, Next(secret, s, Action(t, BeginClean, now)), schedule);
      var c := Window(now, secret.timeWindow);
      && (forall w :: w in end.cache ==> c - 2 <= w <= end.latest + 1)
      && c <= end.latest && |end.cache| <= end.latest - c + 4
      && (end.latest == c ==> |end.cache| <= 4)
  {
    var a := Action(t, BeginClean, now);
    var begun := Next(secret, s, a);
    CleansUpIf(secret, s, t, now);
    StepTransparent(secret, s, a);
    StepBounded(secret, s, a);
    assert begun.latest >= Window(now, secret.timeWindow);
    RunBounded(secret, begun, schedule);
    LatestGrows(secret, begun, schedule);
    var end := After(secret, begun, schedule);
    assert AllAbove(end, Window(now, secret.timeWindow) - 2);
    hide Next, Transparent, NoStaleCall, Window, Enabled, Run, After;
    RangeSize(end.cache.Keys, Window(now, secret.timeWindow) - 2, end.latest + 1);
  }

  lemma {:induction false} LatestGrows(secret: Secret, s: State, schedule: seq<Action>)
    requires secret.timeWindow > 0 && |secret.userID| == 4 && Run(secret, s, schedule)
    ensures s.latest <= After(secret, s, schedule).latest
    decreases schedule
  {
    if schedule != [] {
      LatestGrows(secret, Next(secret, s, schedule[0]), schedule[1..]);
    }
  }

  // The failing schedules

  ghost predicate Reaches(secret: Secret, s: State, end: State, schedule: seq<Action>, now: nat)
    requires secret.timeWindow > 0 && |secret.userID| == 4
  {
    Run(secret, s, schedule) && After(secret, s, schedule) == end && NotBefore(schedule, now)
  }

  lemma Stay(secret: Secret, s: State, now: nat)
    requires secret.timeWindow > 0 && |secret.userID| == 4
    ensures Reaches(secret, s, s, [], now)
  {
  }

  lemma {:induction false} Append(secret: Secret, s: State, middle: State, end: State, before: seq<Action>, after: seq<Action>, now: nat)
    requires secret.timeWindow > 0 && |secret.userID| == 4
    requires Reaches(secret, s, middle, before, now) && Reaches(secret, middle, end, after, now)
    ensures Reaches(secret, s, end, before + after, now)
    decreases before
  {
    if before == [] {
      assert before + after == after;
    } else {
      assert (before + after)[0] == before[0] && (before + after)[1..] == before[1..] + after;
      var s1 := Next(secret, s, before[0]);
      hide Next, Enabled;
      Append(secret, s1, middle, end, before[1..], after, now);
    }
  }

  lemma Then(secret: Secret, s: State, middle: State, schedule: seq<Action>, a: Action, now: nat)
    requires secret.timeWindow > 0 && |secret.userID| == 4
    requires Reaches(secret, s, middle, schedule, now) && Enabled(middle, a) && a.now >= now
    ensures Reaches(secret, s, Next(secret, middle, a), schedule + [a], now)
  {
    hide Next, Enabled;
    assert [a][1..] == [];
    Stay(secret, Next(secret, middle, a), now);
    Append(secret, s, middle, Next(secret, middle, a), schedule, [a], now);
  }

  /** Range visits what is left to visit, deleting what is too old. */
  lemma SweepAll(secret: Secret, s: State, t: nat, now: nat) returns (schedule: seq<Action>, end: State)
    requires secret.timeWindow > 0 && |secret.userID| == 4
    requires t < |s.threads| && s.threads[t].Sweeping? && Distinct(s.cache)
    ensures Reaches(secret, s, end, schedule, now)
    ensures end == State(end.cache, s.stores, s.latest, s.threads[t := Idle])
    ensures forall w :: w in end.cache ==> w in s.cache && end.cache[w] == s.cache[w]
    ensures forall w :: w in s.cache && s.threads[t].current - w <= 2 ==> w in end.cache
    ensures forall w :: w in end.cache && s.cache[w].serial in s.threads[t].todo ==> s.threads[t].current - w <= 2
    decreases |s.threads[t].todo|
  {
    if w :| w in s.cache && s.cache[w].serial in s.threads[t].todo {
      var a := Action(t, Sweep(w), now);
      var s1 := Next(secret, s, a);
      Stay(secret, s, now);
      Then(secret, s, s, [], a, now);
      var rest;
      rest, end := SweepAll(secret, s1, t, now);
      Append(secret, s, s1, end, [] + [a], rest, now);
      schedule := [] + [a] + rest;
      assert s1.threads[t := Idle] == s.threads[t := Idle];
      assert (s.cache - {w}).Keys == s.cache.Keys - {w};
    } else {
      var a := Action(t, Finish, now);
      end := Next(secret, s, a);
      Stay(secret, s, now);
      Then(secret, s, s, [], a, now);
      schedule := [] + [a];
    }
  }

  /** A stale call goes on while nobody else does, and leaves its key behind. */
  lemma StaleStores(secret: Secret, s: State, u: nat, floor: int, now: nat) returns (schedule: seq<Action>, end: State)
    requires secret.timeWindow > 0 && |secret.userID| == 4 && Transparent(secret, s)
    requires u < |s.threads| && StaleCall(secret, s.threads[u], floor) && AllAbove(s, floor)
    ensures Reaches(secret, s, end, schedule, now) && end.latest == s.latest
    ensures |end.threads| == |s.threads| && forall t :: 0 <= t < |s.threads| && t != u ==> end.threads[t] == s.threads[t]
    ensures exists w :: w < floor && end.cache.Keys == s.cache.Keys + {w}
    decreases if s.threads[u].Keyed? then 2 else if s.threads[u].Looking? then 1 else 0
  {
    var move := if s.threads[u].Keyed? then Use else if s.threads[u].Looking? then Load else Store;
    var a := Action(u, move, now);
    var s1 := Next(secret, s, a);
    Stay(secret, s, now);
    Then(secret, s, s, [], a, now);
    if s.threads[u].Missed? {
      schedule, end := [] + [a], s1;
      assert end.cache.Keys == s.cache.Keys + {s.threads[u].job.Key()};
    } else {
      StepTransparent(secret, s, a);
      var rest;
      rest, end := StaleStores(secret, s1, u, floor, now);
      Append(secret, s, s1, end, [] + [a], rest, now);
      schedule := [] + [a] + rest;
    }
  }

  function Fresh(cache: map<int, Entry>, floor: int): set<int> {
    set w | w in cache && w >= floor
  }

  /** A cleanup that nothing interrupts. */
  lemma CleanRun(secret: Secret, s: State, t: nat, now: nat) returns (schedule: seq<Action>, end: State)
    requires secret.timeWindow > 0 && |secret.userID| == 4 && Transparent(secret, s)
    requires Enabled(s, Action(t, BeginClean, now))
    ensures Reaches(secret, Next(secret, s, Action(t, BeginClean, now)), end, schedule, now) && Transparent(secret, end)
    ensures end.latest == Max(s.latest, Window(now, secret.timeWindow)) && end.threads == s.threads[t := Idle]
    ensures end.cache.Keys == Fresh(s.cache, Window(now, secret.timeWindow) - 2)
  {
    var begun := Next(secret, s, Action(t, BeginClean, now));
    var a := Action(t, Survey, now);
    var s1 := Next(secret, begun, a);
    StepTransparent(secret, s, Action(t, BeginClean, now));
    StepTransparent(secret, begun, a);
    assert s1.cache == s.cache && s1.threads[t] == Sweeping(Window(now, secret.timeWindow), Serials(s.cache));
    assert s1.threads[t := Idle] == s.threads[t := Idle];
    Stay(secret, begun, now);
    Then(secret, begun, begun, [], a, now);
    hide Next, Enabled, Window, SoundThread;
    var p;
    p, end := SweepAll(secret, s1, t, now);
    RunTransparent(secret, s1, p);
    Append(secret, begun, s1, end, [] + [a], p, now);
    schedule := [] + [a] + p;
    assert forall w :: w in end.cache <==> w in Fresh(s.cache, Window(now, secret.timeWindow) - 2);
  }

  /** With a stale call in flight the cleanup can end, and then the call store its key. */
  lemma StaleRun(secret: Secret, s: State, t: nat, u: nat, now: nat) returns (schedule: seq<Action>, end: State)
    requires secret.timeWindow > 0 && |secret.userID| == 4 && Transparent(secret, s)
    requires Enabled(s, Action(t, BeginClean, now))
    requires u < |s.threads| && StaleCall(secret, s.threads[u], Window(now, secret.timeWindow) - 2)
    ensures Reaches(secret, Next(secret, s, Action(t, BeginClean, now)), end, schedule, now)
    ensures end.latest == Max(s.latest, Window(now, secret.timeWindow))
    ensures t < |end.threads| == |s.threads| && end.threads[t].Idle?
    ensures var floor := Window(now, secret.timeWindow) - 2;
      exists w :: w < floor && end.cache.Keys == Fresh(s.cache, floor) + {w}
  {
    var floor := Window(now, secret.timeWindow) - 2;
    var begun := Next(secret, s, Action(t, BeginClean, now));
    assert t != u && t < |s.threads|;
    var p, swept := CleanRun(secret, s, t, now);
    assert forall w :: w in swept.cache ==> w in swept.cache.Keys;
    hide Next, Enabled, Transparent, StaleCall, Window;
    var q;
    q, end := StaleStores(secret, swept, u, floor, now);
    Append(secret, begun, swept, end, p, q, now);
    schedule := p + q;
  }

  /** A cleanup leaves no key more than two windows old, whatever interleaves with it, exactly when no call in flight at
      its start is still after such a key: the clock must not step back behind its start. */
  lemma CleansUpExactly(secret: Secret, s: State, t: nat, now: nat)
    requires secret.timeWindow > 0 && |secret.userID| == 4 && Transparent(secret, s)
    requires Enabled(s, Action(t, BeginClean, now))
    ensures CleansUp(secret, s, t, now) <==> NoStaleCall(secret, s, Window(now, secret.timeWindow) - 2)
  {
    if NoStaleCall(secret, s, Window(now, secret.timeWindow) - 2) {
      CleansUpIf(secret, s, t, now);
    } else {
      var u :| 0 <= u < |s.threads| && StaleCall(secret, s.threads[u], Window(now, secret.timeWindow) - 2);
      var schedule, end := StaleRun(secret, s, t, u, now);
      hide Transparent, StaleCall, Next, Window;
      assert !AllAbove(end, Window(now, secret.timeWindow) - 2);
    }
  }

  // Five keys

  /** A call that is after a key gets it, from the cache or not. */
  lemma Fetch(secret: Secret, s: State, t: nat, now: nat) returns (schedule: seq<Action>, end: State)
    requires secret.timeWindow > 0 && |secret.userID| == 4 && Transparent(secret, s)
    requires t < |s.threads| && s.threads[t].Looking? && HasKey(s.threads[t].job)
    ensures Reaches(secret, s, end, schedule, now) && Transparent(secret, end) && end.latest == s.latest
    ensures var job := s.threads[t].job;
      end.threads == s.threads[t := Keyed(job, secret.Aead(job.Key()))] && end.cache.Keys == s.cache.Keys + {job.Key()}
  {
    var job, a, b := s.threads[t].job, Action(t, Load, now), Action(t, Store, now);
    var s1 := Next(secret, s, a);
    StepTransparent(secret, s, a);
    Stay(secret, s, now);
    Then(secret, s, s, [], a, now);
    if job.Key() in s.cache {
      schedule, end := [] + [a], s1;
    } else {
      end := Next(secret, s1, b);
      StepTransparent(secret, s1, b);
      Then(secret, s, s1, [] + [a], b, now);
      schedule := [] + [a] + [b];
      assert end.threads == s.threads[t := Keyed(job, secret.Aead(job.Key()))];
    }
  }

  /** One trial: a call fetches its key and uses it. */
  lemma Try(secret: Secret, s: State, t: nat, now: nat) returns (schedule: seq<Action>, end: State)
    requires secret.timeWindow > 0 && |secret.userID| == 4 && Transparent(secret, s)
    requires t < |s.threads| && s.threads[t].Looking? && HasKey(s.threads[t].job)
    ensures Reaches(secret, s, end, schedule, now) && Transparent(secret, end) && end.latest == s.latest
    ensures var job := s.threads[t].job;
      && end.threads == s.threads[t := Used(secret, job, secret.Aead(job.Key()), now)]
      && end.cache.Keys == s.cache.Keys + {job.Key()}
  {
    var job := s.threads[t].job;
    var p, s1 := Fetch(secret, s, t, now);
    var a := Action(t, Use, now);
    end := Next(secret, s1, a);
    StepTransparent(secret, s1, a);
    assert end.threads == s.threads[t := Used(secret, job, secret.Aead(job.Key()), now)];
    hide Next, Used, Transparent;
    Then(secret, s, s1, p, a, now);
    schedule := p + [a];
  }

  lemma Begin(secret: Secret, s: State, t: nat, move: Move, now: nat) returns (end: State)
    requires secret.timeWindow > 0 && |secret.userID| == 4 && Transparent(secret, s) && Reads(move)
    requires t < |s.threads| && Free(s.threads[t])
    ensures Reaches(secret, s, end, [Action(t, move, now)], 0) && Transparent(secret, end)
    ensures end == State(s.cache, s.stores, Max(s.latest, Window(now, secret.timeWindow)), s.threads[t := Begun(secret, move, now)])
  {
    end := Next(secret, s, Action(t, move, now));
    StepTransparent(secret, s, Action(t, move, now));
    Stay(secret, s, 0);
    Then(secret, s, s, [], Action(t, move, now), 0);
    assert [] + [Action(t, move, now)] == [Action(t, move, now)];
  }

  /** A trial that fails and is not the last. */
  lemma TryNext(secret: Secret, s: State, t: nat, now: nat) returns (schedule: seq<Action>, end: State)
    requires secret.timeWindow > 0 && |secret.userID| == 4 && Transparent(secret, s)
    requires t < |s.threads| && s.threads[t].Looking? && HasKey(s.threads[t].job)
    requires var job := s.threads[t].job;
      job.Opening? && |job.windows| > 1 && secret.Aead(job.Key()).DecryptPacket(secret.crypto, job.data[HEADER_SIZE..]).None?
    ensures Reaches(secret, s, end, schedule, now) && Transparent(secret, end) && end.latest == s.latest
    ensures var job := s.threads[t].job;
      && end.threads == s.threads[t := Looking(Opening(job.data, job.current, job.windows[1..]))]
      && end.cache.Keys == s.cache.Keys + {job.Key()}
  {
    schedule, end := Try(secret, s, t, now);
  }

  /** A packet from the next window is tried under three keys. */
  lemma OpenNext(secret: Secret, s: State, t: nat, packet: Packet, nonce: Bytes, now: nat) returns (schedule: seq<Action>, end: State)
    requires secret.Valid() && |nonce| == NONCE_SIZE && Transparent(secret, s) && t < |s.threads|
    requires var c := Window(now, secret.timeWindow); IsWindow(c - 1) && IsWindow(c + 1)
    requires var c := Window(now, secret.timeWindow);
      s.threads[t] == Begun(secret, BeginOpen(secret.SealIn(packet, c + 1, now, nonce)), now)
    ensures Reaches(secret, s, end, schedule, now) && Transparent(secret, end) && end.latest == s.latest
    ensures |end.threads| == |s.threads| && end.threads == s.threads[t := end.threads[t]] && Free(end.threads[t])
    ensures var c := Window(now, secret.timeWindow); end.cache.Keys == s.cache.Keys + {c - 1, c, c + 1}
  {
    var c := Window(now, secret.timeWindow);
    var data := secret.SealIn(packet, c + 1, now, nonce);
    FitsLast(secret, packet, c, now, nonce);
    assert Around(c) == [c - 1, c, c + 1];
    hide IdealCipher, Transparent, Secret.SealIn, AEAD.DecryptPacket, Window, Secret.Parsed, Around, Reaches;
    var p, s1 := TryNext(secret, s, t, now);
    assert [c - 1, c, c + 1][1..] == [c, c + 1];
    var q, s2 := TryNext(secret, s1, t, now);
    assert [c, c + 1][1..] == [c + 1];
    Append(secret, s, s1, s2, p, q, now);
    var r;
    r, end := TryLast(secret, s2, t, now);
    Append(secret, s, s2, end, p + q, r, now);
    schedule := p + q + r;
  }

  lemma FitsLast(secret: Secret, packet: Packet, c: int, now: nat, nonce: Bytes)
    requires secret.Valid() && |nonce| == NONCE_SIZE && IsWindow(c - 1) && IsWindow(c + 1)
    ensures var data := secret.SealIn(packet, c + 1, now, nonce);
      && |data| >= HEADER_SIZE + NONCE_SIZE + TAG_SIZE
      && secret.Aead(c - 1).DecryptPacket(secret.crypto, data[HEADER_SIZE..]).None?
      && secret.Aead(c).DecryptPacket(secret.crypto, data[HEADER_SIZE..]).None?
  {
    SealShape(secret, packet, c + 1, now, nonce);
    OpenUnder(secret, c - 1, c + 1, packet.Serialize(), nonce);
    OpenUnder(secret, c, c + 1, packet.Serialize(), nonce);
    hide IdealCipher;
  }

  /** The last trial ends the call, whether its key fits or not. */
  lemma TryLast(secret: Secret, s: State, t: nat, now: nat) returns (schedule: seq<Action>, end: State)
    requires secret.timeWindow > 0 && |secret.userID| == 4 && Transparent(secret, s)
    requires t < |s.threads| && s.threads[t].Looking? && HasKey(s.threads[t].job)
    requires s.threads[t].job.Opening? && |s.threads[t].job.windows| == 1
    ensures Reaches(secret, s, end, schedule, now) && Transparent(secret, end) && end.latest == s.latest
    ensures |end.threads| == |s.threads| && end.threads == s.threads[t := end.threads[t]] && Free(end.threads[t])
    ensures end.cache.Keys == s.cache.Keys + {s.threads[t].job.Key()}
  {
    schedule, end := Try(secret, s, t, now);
  }

  lemma WindowOf(w: nat, size: nat)
    requires size > 0
    ensures Window(w * size, size) == w
  {
    var q, r := w * size / size, w * size % size;
    assert w * size == q * size + r;
    if q < w {
      Multiple(q - w, size);
    } else if q > w {
      Multiple(w - q, size);
    }
  }

  lemma Join(secret: Secret, s: State, middle: State, end: State, before: seq<Action>, after: seq<Action>, now: nat)
    requires secret.timeWindow > 0 && |secret.userID| == 4
    requires Reaches(secret, s, middle, before, 0) && Reaches(secret, middle, end, after, now)
    ensures Reaches(secret, s, end, before + after, 0)
  {
    assert Reaches(secret, middle, end, after, 0);
    Append(secret, s, middle, end, before, after, 0);
  }

  predicate Behind(s: State, packet: Packet, nonce: Bytes, keys: set<int>, latest: int) {
    && |s.threads| == 2 && s.threads[0] == Looking(Sealing(packet, nonce, 2)) && Free(s.threads[1])
    && s.cache.Keys == keys && s.latest == latest
  }

  /** Goroutine 0 begins a call in window 2 and stops; goroutine 1 seals a packet in window 8. */
  lemma SealLater(secret: Secret, packet: Packet, nonce: Bytes) returns (schedule: seq<Action>, end: State)
    requires secret.Valid()
    ensures Reaches(secret, Start(2, 0), end, schedule, 0) && Transparent(secret, end) && Behind(end, packet, nonce, {8}, 8)
  {
    var size, move := secret.timeWindow, BeginSeal(packet, nonce);
    WindowOf(2, size);
    WindowOf(8, size);
    var s1 := Begin(secret, Start(2, 0), 0, move, 2 * size);
    var s2 := Begin(secret, s1, 1, move, 8 * size);
    hide IdealCipher, Transparent, Window, Reaches, AEAD.EncryptPacket;
    Join(secret, Start(2, 0), s1, s2, [Action(0, move, 2 * size)], [Action(1, move, 8 * size)], 0);
    var p;
    p, end := Try(secret, s2, 1, 0);
    schedule := [Action(0, move, 2 * size)] + [Action(1, move, 8 * size)];
    Join(secret, Start(2, 0), s2, end, schedule, p, 0);
    schedule := schedule + p;
  }

  /** Then goroutine 1 opens, in window 10, a packet that comes from window 11. */
  lemma OpenLater(secret: Secret, s: State, packet: Packet, nonce: Bytes) returns (schedule: seq<Action>, end: State)
    requires secret.Valid() && |nonce| == NONCE_SIZE && Transparent(secret, s) && Behind(s, packet, nonce, {8}, 8)
    ensures Reaches(secret, s, end, schedule, 0) && Transparent(secret, end) && Behind(end, packet, nonce, {8, 9, 10, 11}, 10)
  {
    var now := 10 * secret.timeWindow;
    WindowOf(10, secret.timeWindow);
    var move := BeginOpen(secret.SealIn(packet, 11, now, nonce));
    var s1 := Begin(secret, s, 1, move, now);
    hide IdealCipher, Transparent, Window, Reaches, AEAD.EncryptPacket, Begun, Secret.SealIn;
    var p;
    p, end := OpenNext(secret, s1, 1, packet, nonce, now);
    Join(secret, s, s1, end, [Action(1, move, now)], p, now);
    schedule := [Action(1, move, now)] + p;
  }

  /** Then it cleans up, and only after that does goroutine 0 go on: its key is the fifth in the cache. */
  lemma CleanLater(secret: Secret, s: State, packet: Packet, nonce: Bytes) returns (begun: State, schedule: seq<Action>, end: State)
    requires secret.Valid() && Transparent(secret, s) && Behind(s, packet, nonce, {8, 9, 10, 11}, 10)
    ensures Reaches(secret, s, begun, [Action(1, BeginClean, 10 * secret.timeWindow)], 0)
    ensures Reaches(secret, begun, end, schedule, 10 * secret.timeWindow)
    ensures |end.threads| == 2 && end.threads[1].Idle? && end.latest == 10
    ensures exists w :: w < 8 && end.cache.Keys == {8, 9, 10, 11} + {w}
  {
    var now := 10 * secret.timeWindow;
    WindowOf(10, secret.timeWindow);
    begun := Begin(secret, s, 1, BeginClean, now);
    assert Fresh(s.cache, 8) == {8, 9, 10, 11};
    assert begun == Next(secret, s, Action(1, BeginClean, now));
    hide IdealCipher, Window, Reaches, Transparent, Next, Fresh;
    schedule, end := StaleRun(secret, s, 1, 0, now);
  }

  lemma FiveKeys(secret: Secret, packet: Packet, nonce: Bytes) returns (schedule: seq<Action>, end: State)
    requires secret.Valid() && |nonce| == NONCE_SIZE
    ensures Reaches(secret, Start(2, 0), end, schedule, 0)
    ensures |end.threads| == 2 && end.threads[1].Idle? && end.latest == 10 && |end.cache| == 5
  {
    hide IdealCipher, Window, Reaches, Transparent, Behind;
    var now := 10 * secret.timeWindow;
    var p, s1 := SealLater(secret, packet, nonce);
    var q, s2 := OpenLater(secret, s1, packet, nonce);
    Join(secret, Start(2, 0), s1, s2, p, q, 0);
    var s3, r;
    s3, r, end := CleanLater(secret, s2, packet, nonce);
    CleanedUp(secret, Start(2, 0), s2, s3, end, p + q, r, now);
    schedule := p + q + ([Action(1, BeginClean, now)] + r);
    FiveOf(end.cache);
  }

  lemma FiveOf(cache: map<int, Entry>)
    requires exists w :: w < 8 && cache.Keys == {8, 9, 10, 11} + {w}
    ensures |cache| == 5
  {
    var w :| w < 8 && cache.Keys == {8, 9, 10, 11} + {w};
    assert |cache| == |cache.Keys| == |{8, 9, 10, 11} + {w}|;
  }

  lemma CleanedUp(secret: Secret, s: State, middle: State, begun: State, end: State, before: seq<Action>, after: seq<Action>, now: nat)
    requires secret.timeWindow > 0 && |secret.userID| == 4
    requires Reaches(secret, s, middle, before, 0) && Reaches(secret, begun, end, after, now)
    requires Reaches(secret, middle, begun, [Action(1, BeginClean, now)], 0)
    ensures Reaches(secret, s, end, before + ([Action(1, BeginClean, now)] + after), 0)
  {
    Join(secret, middle, begun, end, [Action(1, BeginClean, now)], after, now);
    Join(secret, s, middle, end, before, [Action(1, BeginClean, now)] + after, 0);
  }

  /** The clock must not step back either: a packet sealed after the cleanup, at a reading more than two windows before it,
      leaves its key behind. */
  lemma SteppedBack(secret: Secret, s: State, t: nat, now: nat, earlier: nat, packet: Packet, nonce: Bytes)
    returns (schedule: seq<Action>, end: State)
    requires secret.timeWindow > 0 && |secret.userID| == 4 && Transparent(secret, s)
    requires Enabled(s, Action(t, BeginClean, now))
    requires Window(earlier, secret.timeWindow) < Window(now, secret.timeWindow) - 2
    ensures Reaches(secret, Next(secret, s, Action(t, BeginClean, now)), end, schedule, 0)
    ensures t < |end.threads| && !Sweeps(end.threads[t]) && Window(earlier, secret.timeWindow) in end.cache
  {
    var begun := Next(secret, s, Action(t, BeginClean, now));
    var move := BeginSeal(packet, nonce);
    var p, s1 := CleanRun(secret, s, t, now);
    var s2 := Begin(secret, s1, t, move, earlier);
    var q;
    q, end := Try(secret, s2, t, earlier);
    assert Window(earlier, secret.timeWindow) in end.cache.Keys;
    hide Next, Transparent, Window, Enabled;
    assert Reaches(secret, begun, s1, p, 0);
    Join(secret, begun, s1, s2, p, [Action(t, move, earlier)], 0);
    Join(secret, begun, s2, end, p + [Action(t, move, earlier)], q, earlier);
    schedule := p + [Action(t, move, earlier)] + q;
  }
}
