/** Time windows, the encrypted envelope and its key cache
    (internal/crypto/timeslot.go, internal/crypto/cipher.go, internal/protocol/builder.go).

    The cipher (section 2.8 of RFC 8439) and the key derivation (section 2 of RFC 5869)
    are outside the repository: they appear as functions that behave ideally for the
    keys of one pre-shared key. A toy instance shows that the assumptions can be met.
    Clocks are seconds since 1970, windows are a positive number of seconds.
 */
module Envelope {
  import opened Basics
  import opened Packets

  const NONCE_SIZE := 12
  const TAG_SIZE := 16
  const KEY_SIZE := 32

  datatype Crypto = Crypto(
    derive: (Bytes, int) -> Bytes,
    seal: (Bytes, Bytes, Bytes) -> Bytes,
    open: (Bytes, Bytes, Bytes) -> Option<Bytes>)

  predicate IsWindow(w: int) {
    -0x8000_0000_0000_0000 <= w < 0x8000_0000_0000_0000
  }

  /** Opening undoes sealing under the key of the same window, and fails under the key of any other. */
  ghost predicate IdealCipher(crypto: Crypto, psk: Bytes) {
    && (forall w {:trigger crypto.derive(psk, w)} :: |crypto.derive(psk, w)| == KEY_SIZE)
    && (forall key, nonce, m {:trigger crypto.seal(key, nonce, m)} :: |crypto.seal(key, nonce, m)| == |m| + TAG_SIZE)
    && (forall v, w, nonce, m {:trigger crypto.open(crypto.derive(psk, v), nonce, crypto.seal(crypto.derive(psk, w), nonce, m))} ::
          IsWindow(v) && IsWindow(w) ==>
            crypto.open(crypto.derive(psk, v), nonce, crypto.seal(crypto.derive(psk, w), nonce, m))
            == if v == w then Some(m) else None)
  }

  // The assumptions can be met: a cipher that seals by appending half the key

  function Digits(x: nat, n: nat): (b: Bytes)
    ensures |b| == n
  {
    if n == 0 then [] else Digits(x / 256, n - 1) + [x % 256]
  }

  lemma {:induction false} DigitsInjective(x: nat, y: nat, n: nat, limit: nat)
    requires limit == Power256(n) && x < limit && y < limit && Digits(x, n) == Digits(y, n)
    ensures x == y
  {
    if n > 0 {
      var a, b := Digits(x / 256, n - 1), Digits(y / 256, n - 1);
      assert a == Digits(x, n)[..n - 1] && b == Digits(y, n)[..n - 1];
      assert x % 256 == Digits(x, n)[n - 1] && y % 256 == Digits(y, n)[n - 1];
      DigitsInjective(x / 256, y / 256, n - 1, Power256(n - 1));
    }
  }

  function Power256(n: nat): nat { if n == 0 then 1 else 256 * Power256(n - 1) }

  function Biased(w: int): nat { if w < -0x8000_0000_0000_0000 then 0 else w + 0x8000_0000_0000_0000 }

  function ToyKey(psk: Bytes, w: int): (key: Bytes)
    ensures |key| == KEY_SIZE
  {
    Digits(Biased(w), 8) + seq(24, _ => 0)
  }

  function ToyTag(key: Bytes): (tag: Bytes)
    ensures |tag| == TAG_SIZE
  {
    if |key| == KEY_SIZE then key[..TAG_SIZE] else seq(TAG_SIZE, _ => 0)
  }

  function ToySeal(key: Bytes, nonce: Bytes, m: Bytes): Bytes { m + ToyTag(key) }

  function ToyOpen(key: Bytes, nonce: Bytes, c: Bytes): Option<Bytes> {
    if |c| >= TAG_SIZE && c[|c| - TAG_SIZE..] == ToyTag(key) then Some(c[..|c| - TAG_SIZE]) else None
  }

  const TOY := Crypto(ToyKey, ToySeal, ToyOpen)

  lemma ToyTagsDiffer(psk: Bytes, v: int, w: int)
    requires IsWindow(v) && IsWindow(w) && v != w
    ensures ToyTag(ToyKey(psk, v)) != ToyTag(ToyKey(psk, w))
  {
    var a, b := Digits(Biased(v), 8), Digits(Biased(w), 8);
    assert Power256(8) == 256 * (256 * (256 * (256 * (256 * (256 * (256 * (256 * 1))))))) by {
      assert Power256(4) == 256 * (256 * (256 * (256 * 1)));
    }
    if a == b {
      DigitsInjective(Biased(v), Biased(w), 8, Power256(8));
    }
    assert ToyTag(ToyKey(psk, v))[..8] == a && ToyTag(ToyKey(psk, w))[..8] == b;
  }

  /** The assumptions about the cipher are not contradictory. */
  lemma ToyIsIdeal(psk: Bytes)
    ensures IdealCipher(TOY, psk)
  {
    forall v, w, nonce, m | IsWindow(v) && IsWindow(w)
      ensures ToyOpen(ToyKey(psk, v), nonce, ToySeal(ToyKey(psk, w), nonce, m)) == if v == w then Some(m) else None
    {
      var c := ToySeal(ToyKey(psk, w), nonce, m);
      assert c[|c| - TAG_SIZE..] == ToyTag(ToyKey(psk, w));
      if v == w {
        assert c[..|c| - TAG_SIZE] == m;
      } else {
        ToyTagsDiffer(psk, v, w);
      }
    }
  }

  // Windows

  function Window(now: nat, size: nat): int
    requires size > 0
  {
    now / size
  }

  /** The windows tried around one: the one before it, itself, the one after it. */
  function Around(window: int): (w: seq<int>)
    ensures |w| == 3
  {
    [window - 1, window, window + 1]
  }

  predicate Near(t1: nat, t2: nat, size: nat)
    requires size > 0
  {
    -1 <= Window(t1, size) - Window(t2, size) <= 1
  }

  /** How many windows apart two clocks are, against how many seconds. */
  lemma WindowGap(t1: nat, t2: nat, size: nat)
    requires size > 0 && t2 <= t1
    ensures var gap := t1 / size - t2 / size;
      && 0 <= gap && (t1 - t2 <= size ==> gap <= 1) && (t1 - t2 >= 2 * size ==> gap >= 2)
  {
    var q1, q2 := t1 / size, t2 / size;
    var gap := q1 - q2;
    assert t1 == q1 * size + t1 % size && t2 == q2 * size + t2 % size;
    assert q1 * size - q2 * size == gap * size;
    Multiple(gap, size);
  }

  lemma Product(a: nat, b: nat)
    ensures a * b >= 0
  {}

  lemma Multiple(gap: int, size: nat)
    requires size > 0
    ensures gap >= 2 ==> gap * size >= 2 * size
    ensures gap <= 1 ==> gap * size <= size
    ensures gap < 0 ==> gap * size <= -(size as int)
  {
    var x := gap * size;
    if gap >= 2 {
      Product(gap - 2, size);
      assert (gap - 2) * size == x - 2 * size;
    } else {
      Product(1 - gap, size);
      assert (1 - gap) * size == size - x;
      if gap < 0 {
        Product(-gap - 1, size);
        assert (-gap - 1) * size == -x - size;
      }
    }
  }

  /** Clocks at most one window apart always agree, clocks two windows apart never do. */
  lemma NearBounds(t1: nat, t2: nat, size: nat)
    requires size > 0
    ensures -(size as int) <= t1 - t2 <= size ==> Near(t1, t2, size)
    ensures t1 - t2 >= 2 * size || t2 - t1 >= 2 * size ==> !Near(t1, t2, size)
  {
    if t2 <= t1 {
      WindowGap(t1, t2, size);
    } else {
      WindowGap(t2, t1, size);
    }
  }

  /** Both bounds are tight: for every skew between them there are clocks that agree and clocks that do not. */
  lemma NearTight(skew: nat, size: nat)
    requires size > 0 && size < skew < 2 * size
    ensures Near(0, skew, size) && !Near(size - 1, size - 1 + skew, size)
  {
    assert skew / size == 1;
    assert (size - 1) / size == 0;
    var t := size - 1 + skew;
    assert 2 * size <= t < 3 * size;
    assert t / size == 2;
  }

  predicate Stamps(now: nat, skew: int, ts: uint16) { (now + skew) % 0x1_0000 == ts }

  lemma CircleDistance(now: nat, ts: uint16, diff: int, skew: int)
    requires Stamps(now, -diff, ts) && -32768 <= diff <= 32768 && Stamps(now, skew, ts)
    ensures -skew <= diff <= skew || skew <= diff <= -skew
  {
    var q1, q2 := (now + skew) / 0x1_0000, (now - diff) / 0x1_0000;
    assert skew + diff == 0x1_0000 * (q1 - q2);
  }

  /** The clear timestamp is accepted exactly when some clock at most two windows away would have stamped it. */
  method ValidateTimestamp(ts: uint16, now: nat, size: nat) returns (ok: bool)
    ensures ok <==> exists skew: int :: -2 * size <= skew <= 2 * size && Stamps(now, skew, ts)
  {
    var current := now % 0x1_0000;
    var diff := current - ts;
    if diff < -32768 {
      diff := diff + 65536;
    } else if diff > 32768 {
      diff := diff - 65536;
    }
    assert Stamps(now, -diff, ts);
    ghost var signed := diff;
    if diff < 0 {
      diff := -diff;
    }
    ok := diff <= size * 2;
    forall skew: int | Stamps(now, skew, ts) && -2 * size <= skew <= 2 * size ensures diff <= size * 2 {
      CircleDistance(now, ts, signed, skew);
    }
  }

  // The cipher around a packet

  datatype AEAD = AEAD(key: Bytes) {
    function EncryptPacket(crypto: Crypto, plaintext: Bytes, nonce: Bytes): Bytes {
      nonce + crypto.seal(key, nonce, plaintext)
    }

    function DecryptPacket(crypto: Crypto, packet: Bytes): Option<Bytes> {
      if |packet| < NONCE_SIZE + TAG_SIZE then None
      else crypto.open(key, packet[..NONCE_SIZE], packet[NONCE_SIZE..])
    }
  }

  function NewAEAD(key: Bytes): Option<AEAD> {
    if |key| != KEY_SIZE then None else Some(AEAD(key))
  }

  /** What the builder shares with its peer. */
  datatype Secret = Secret(crypto: Crypto, psk: Bytes, userID: Bytes, timeWindow: nat) {
    ghost predicate Valid() {
      IdealCipher(crypto, psk) && |userID| == 4 && timeWindow > 0
    }

    function Aead(w: int): AEAD { AEAD(crypto.derive(psk, w)) }

    /** A packet encrypted in a window; its header is stamped by another reading of the clock. */
    function SealIn(packet: Packet, window: int, stamped: nat, nonce: Bytes): Bytes
      requires |userID| == 4
    {
      PacketHeader(userID, stamped % 0x1_0000).Serialize() + Aead(window).EncryptPacket(crypto, packet.Serialize(), nonce)
    }

    function Seal(packet: Packet, now: nat, stamped: nat, nonce: Bytes): Bytes
      requires timeWindow > 0 && |userID| == 4
    {
      SealIn(packet, Window(now, timeWindow), stamped, nonce)
    }

    /** The first of the windows whose key opens the packet, and what it opens to. */
    function OpenWith(windows: seq<int>, encrypted: Bytes): Option<Bytes> {
      if windows == [] then None
      else
        match Aead(windows[0]).DecryptPacket(crypto, encrypted)
        case Some(plaintext) => Some(plaintext)
        case None => OpenWith(windows[1..], encrypted)
    }

    /** What is made of a decrypted plaintext; an empty one is indistinguishable from none. */
    function Parsed(data: Bytes, plaintext: Option<Bytes>): Result<Packet, PacketError>
      requires |data| >= HEADER_SIZE
    {
      if plaintext.GetOr([]) == [] then Err(DecryptionFailed)
      else
        match ParsePacket(plaintext.value)
        case Err(e) => Err(e)
        case Ok(p) => Ok(p.(header := ParseHeader(data).value))
    }

    /** Decryption in a window. */
    function OpenIn(data: Bytes, window: int): Result<Packet, PacketError> {
      if |data| < HEADER_SIZE + NONCE_SIZE + TAG_SIZE then Err(PacketTooShort)
      else Parsed(data, OpenWith(Around(window), data[HEADER_SIZE..]))
    }

    function Open(data: Bytes, now: nat): Result<Packet, PacketError>
      requires timeWindow > 0
    {
      OpenIn(data, Window(now, timeWindow))
    }
  }

  /** What DecryptPacket yields of a packet: the packet, with the header that travelled in the clear. */
  function Arrived(s: Secret, packet: Packet, stamped: nat): Packet {
    packet.(header := PacketHeader(s.userID, stamped % 0x1_0000))
  }

  lemma SealShape(s: Secret, packet: Packet, window: int, stamped: nat, nonce: Bytes)
    requires s.Valid() && |nonce| == NONCE_SIZE
    ensures var data := s.SealIn(packet, window, stamped, nonce);
      && |data| == HEADER_SIZE + NONCE_SIZE + BODY_SIZE + |packet.payload| + TAG_SIZE
      && ParseHeader(data) == Ok(PacketHeader(s.userID, stamped % 0x1_0000))
      && data[HEADER_SIZE..] == s.Aead(window).EncryptPacket(s.crypto, packet.Serialize(), nonce)
  {
    HeaderRoundTrip(PacketHeader(s.userID, stamped % 0x1_0000),
                    s.Aead(window).EncryptPacket(s.crypto, packet.Serialize(), nonce));
  }

  lemma OpenUnder(s: Secret, w: int, sealedIn: int, plaintext: Bytes, nonce: Bytes)
    requires s.Valid() && |nonce| == NONCE_SIZE && IsWindow(w) && IsWindow(sealedIn)
    ensures s.Aead(w).DecryptPacket(s.crypto, s.Aead(sealedIn).EncryptPacket(s.crypto, plaintext, nonce))
         == if w == sealedIn then Some(plaintext) else None
  {
    var c := s.Aead(sealedIn).EncryptPacket(s.crypto, plaintext, nonce);
    assert c[..NONCE_SIZE] == nonce;
    assert c[NONCE_SIZE..] == s.crypto.seal(s.Aead(sealedIn).key, nonce, plaintext);
  }

  lemma {:induction false} OpenWithOne(s: Secret, windows: seq<int>, sealedIn: int, plaintext: Bytes, nonce: Bytes)
    requires s.Valid() && |nonce| == NONCE_SIZE && IsWindow(sealedIn)
    requires forall i :: 0 <= i < |windows| ==> IsWindow(windows[i])
    ensures s.OpenWith(windows, s.Aead(sealedIn).EncryptPacket(s.crypto, plaintext, nonce))
         == if sealedIn in windows then Some(plaintext) else None
  {
    hide IdealCipher;
    if windows != [] {
      OpenUnder(s, windows[0], sealedIn, plaintext, nonce);
      OpenWithOne(s, windows[1..], sealedIn, plaintext, nonce);
      assert sealedIn in windows <==> sealedIn == windows[0] || sealedIn in windows[1..];
    }
  }

  /** A packet sealed in one window opens in another exactly when they are the same or neighbours. */
  lemma OpensInExactly(s: Secret, packet: Packet, sealedIn: int, stamped: nat, openedIn: int, nonce: Bytes)
    requires s.Valid() && |nonce| == NONCE_SIZE
    requires IsWindow(sealedIn) && IsWindow(openedIn - 1) && IsWindow(openedIn + 1)
    ensures s.OpenIn(s.SealIn(packet, sealedIn, stamped, nonce), openedIn)
         == if -1 <= sealedIn - openedIn <= 1 then Ok(Arrived(s, packet, stamped)) else Err(DecryptionFailed)
  {
    hide IdealCipher;
    SealShape(s, packet, sealedIn, stamped, nonce);
    OpenWithOne(s, Around(openedIn), sealedIn, packet.Serialize(), nonce);
    PacketRoundTrip(packet);
  }

  /** A packet sealed at one time opens at another exactly when the two lie in the same window or in neighbouring ones,
      and then it comes back with every field as it was. */
  lemma OpensExactly(s: Secret, packet: Packet, sealedAt: nat, stamped: nat, openedAt: nat, nonce: Bytes)
    requires s.Valid() && |nonce| == NONCE_SIZE
    requires IsWindow(sealedAt) && IsWindow(openedAt + 1)
    ensures s.Open(s.Seal(packet, sealedAt, stamped, nonce), openedAt)
         == if Near(sealedAt, openedAt, s.timeWindow) then Ok(Arrived(s, packet, stamped)) else Err(DecryptionFailed)
  {
    hide IdealCipher;
    WindowSmaller(sealedAt, s.timeWindow);
    WindowSmaller(openedAt, s.timeWindow);
    OpensInExactly(s, packet, Window(sealedAt, s.timeWindow), stamped, Window(openedAt, s.timeWindow), nonce);
  }

  lemma WindowSmaller(now: nat, size: nat)
    requires size > 0
    ensures 0 <= Window(now, size) <= now
  {
    var q := now / size;
    assert now == q * size + now % size;
    Product(q, size - 1);
    assert q * (size - 1) == q * size - q;
  }

  // A peer that knows the pre-shared key, the wire format and nothing of this code

  /** Bytes as a peer seals a text in a window: a clear header, the nonce, and the text under the key derived for the window. */
  predicate SealedByPeer(s: Secret, data: Bytes, window: int, nonce: Bytes, text: Bytes) {
    && |data| >= 18 && |nonce| == 12 && data[6..18] == nonce
    && data[18..] == s.crypto.seal(s.crypto.derive(s.psk, window), nonce, text)
  }

  /** What a peer reads in a decrypted text: the fields where the wire format has them. */
  ghost predicate ReadsAs(data: Bytes, text: Bytes, p: Packet)
    requires |data| >= 6 && |text| >= 18
  {
    && p.header.userID == data[..4] && Value(data[4..6]) == p.header.timestamp
    && text[0] == p.kind && text[17] == p.flags && text[18..] == p.payload
    && Value(text[1..5]) == p.sessionID && Value(text[5..9]) == p.streamID
    && Value(text[9..13]) == p.sequence && Value(text[13..17]) == p.ackSeq
  }

  lemma ParsedReads(data: Bytes, text: Bytes)
    requires |data| >= 6 && |text| >= 18
    ensures ParseHeader(data).Ok? && ParsePacket(text).Ok?
    ensures ReadsAs(data, text, ParsePacket(text).value.(header := ParseHeader(data).value))
  {
    Value2(data[4..6]);
    Value4(text[1..5]);
    Value4(text[5..9]);
    Value4(text[9..13]);
    Value4(text[13..17]);
    hide Value;
  }

  /** What has to come of a text sealed in a window: anything but a packet of this window or a neighbouring one is refused. */
  ghost predicate ComesOut(s: Secret, data: Bytes, window: int, text: Bytes, now: nat, r: Result<Packet, PacketError>)
    requires s.timeWindow > 0 && |data| >= 18
  {
    if !(-1 <= window - now / s.timeWindow <= 1) || text == [] then r == Err(DecryptionFailed)
    else if |text| < 18 then r == Err(PacketTooShort)
    else r.Ok? && ReadsAs(data, text, r.value)
  }

  /** Opening what a peer has sealed. */
  lemma OpensPeer(s: Secret, data: Bytes, window: int, nonce: Bytes, text: Bytes, now: nat)
    requires s.Valid() && SealedByPeer(s, data, window, nonce, text) && IsWindow(window) && IsWindow(now + 1)
    ensures ComesOut(s, data, window, text, now, s.Open(data, now))
  {
    WindowSmaller(now, s.timeWindow);
    var encrypted := s.Aead(window).EncryptPacket(s.crypto, text, nonce);
    assert data[6..] == data[6..18] + data[18..];
    OpenWithOne(s, Around(now / s.timeWindow), window, text, nonce);
    if |text| >= 18 {
      ParsedReads(data, text);
    }
    assert s.crypto.seal(s.crypto.derive(s.psk, window), nonce, text) == data[18..];
    hide ReadsAs, Secret.OpenWith;
  }

  /** A peer whose clock shows the same window opens what is sealed, with the key it derives for that window. */
  lemma PeerOpens(s: Secret, packet: Packet, now: nat, stamped: nat, nonce: Bytes)
    requires s.Valid() && |nonce| == 12 && IsWindow(now)
    ensures var data := s.Seal(packet, now, stamped, nonce);
      && SealedByPeer(s, data, now / s.timeWindow, nonce, packet.Serialize())
      && data[..4] == s.userID && Value(data[4..6]) == stamped % 0x1_0000
      && s.crypto.open(s.crypto.derive(s.psk, now / s.timeWindow), nonce, data[18..]) == Some(packet.Serialize())
  {
    var header := PacketHeader(s.userID, stamped % 0x1_0000);
    var sealed := s.crypto.seal(s.crypto.derive(s.psk, now / s.timeWindow), nonce, packet.Serialize());
    var data := s.Seal(packet, now, stamped, nonce);
    Layout(header, packet);
    assert data == header.Serialize() + (nonce + sealed);
    assert data[..4] == header.Serialize()[..4] && data[4..6] == header.Serialize()[4..6];
    assert data[6..18] == nonce && data[18..] == sealed;
    WindowSmaller(now, s.timeWindow);
    hide Packet.Serialize, PacketHeader.Serialize, Value;
  }

  /** The builder, one call at a time; KeyCache.dfy lets its calls interleave. The clock may step back between calls. */
  class PacketBuilder {
    const secret: Secret
    var sequence: uint32
    var aeadCache: map<int, AEAD>

    /** The cache holds what it would compute. */
    ghost predicate Valid()
      reads this
    {
      secret.Valid() && forall w :: w in aeadCache ==> aeadCache[w] == secret.Aead(w)
    }

    constructor (secret: Secret)
      requires secret.Valid()
      ensures Valid() && this.secret == secret && sequence == 0 && aeadCache == map[]
    {
      this.secret := secret;
      sequence := 0;
      aeadCache := map[];
    }

    method NextSequence() returns (n: uint32)
      modifies `sequence
      ensures n == sequence == (old(sequence) + 1) % 0x1_0000_0000
    {
      sequence := (sequence + 1) % 0x1_0000_0000;
      n := sequence;
    }

    method GetAEAD(window: int) returns (aead: Option<AEAD>)
      requires Valid()
      modifies `aeadCache
      ensures Valid() && aead == Some(secret.Aead(window)) && aead.value.key == secret.crypto.derive(secret.psk, window)
      ensures aeadCache == old(aeadCache)[window := secret.Aead(window)]
    {
      if window in aeadCache {
        return Some(aeadCache[window]);
      }
      var sessionKey := secret.crypto.derive(secret.psk, window);
      aead := NewAEAD(sessionKey);
      if aead.None? {
        return;
      }
      aeadCache := aeadCache[window := aead.value];
    }

    /** The result depends on the secret and the times alone, whatever the cache holds, and is what a peer opens with the
        key it derives for the window. */
    method EncryptPacket(packet: Packet, now: nat, stamped: nat, nonce: Bytes) returns (r: Result<Bytes, PacketError>)
      requires Valid()
      modifies `aeadCache
      ensures Valid() && r == Ok(secret.Seal(packet, now, stamped, nonce))
      ensures |nonce| == 12 && IsWindow(now) ==>
        && |r.value| >= 18 && r.value[..4] == secret.userID && Value(r.value[4..6]) == stamped % 0x1_0000 && r.value[6..18] == nonce
        && secret.crypto.open(secret.crypto.derive(secret.psk, now / secret.timeWindow), nonce, r.value[18..])
           == Some(packet.Serialize())
      ensures var w := Window(now, secret.timeWindow); aeadCache == old(aeadCache)[w := secret.Aead(w)]
    {
      var window := Window(now, secret.timeWindow);
      var aead := GetAEAD(window);
      if aead.None? {
        return Err(CreateAEAD);
      }
      var encrypted := aead.value.EncryptPacket(secret.crypto, packet.Serialize(), nonce);
      var header := PacketHeader(secret.userID, stamped % 0x1_0000);
      r := Ok(header.Serialize() + encrypted);
      assert r == Ok(secret.Seal(packet, now, stamped, nonce));
      hide IdealCipher, Secret.Seal;
      if |nonce| == 12 && IsWindow(now) {
        PeerOpens(secret, packet, now, stamped, nonce);
      }
    }

    /** What the Build methods have in common: the packet takes the next sequence number and is encrypted. */
    method Build(kind: byte, sessionID: uint32, streamID: uint32, ackSeq: uint32, flags: byte, payload: Bytes,
                 now: nat, stamped: nat, nonce: Bytes)
      returns (r: Result<Bytes, PacketError>)
      requires Valid()
      modifies `sequence, `aeadCache
      ensures Valid() && sequence == (old(sequence) + 1) % 0x1_0000_0000
      ensures r == Ok(secret.Seal(Packet(NO_HEADER, kind, sessionID, streamID, sequence, ackSeq, flags, payload), now, stamped, nonce))
    {
      var n := NextSequence();
      r := EncryptPacket(Packet(NO_HEADER, kind, sessionID, streamID, n, ackSeq, flags, payload), now, stamped, nonce);
    }

    /** A packet of stream data as SendStreamData has it built. */
    method BuildStreamDataPacket(sessionID: uint32, streamID: uint32, ackSeq: uint32, data: Bytes, now: nat, stamped: nat, nonce: Bytes)
      returns (r: Result<Bytes, PacketError>)
      requires Valid() && |nonce| == NONCE_SIZE && IsWindow(now)
      modifies `sequence, `aeadCache
      ensures Valid() && sequence == (old(sequence) + 1) % 0x1_0000_0000 && r.Ok?
      ensures forall openedAt: nat :: IsWindow(openedAt + 1) && Near(now, openedAt, secret.timeWindow) ==>
        secret.Open(r.value, openedAt)
        == Ok(Packet(PacketHeader(secret.userID, stamped % 0x1_0000), 0x11, sessionID, streamID, sequence, ackSeq, 0x20, data))
    {
      r := Build(STREAM_DATA, sessionID, streamID, ackSeq, FLAG_MUX, data, now, stamped, nonce);
      ghost var packet := Packet(NO_HEADER, STREAM_DATA, sessionID, streamID, sequence, ackSeq, FLAG_MUX, data);
      forall openedAt: nat | IsWindow(openedAt + 1) && Near(now, openedAt, secret.timeWindow)
        ensures secret.Open(r.value, openedAt) == Ok(Arrived(secret, packet, stamped))
      {
        OpensExactly(secret, packet, now, stamped, openedAt, nonce);
      }
    }

    /** The result depends on the secret and the time alone, whatever the cache holds: a packet that a peer has sealed in this
        window or a neighbouring one. */
    method DecryptPacket(data: Bytes, now: nat) returns (r: Result<Packet, PacketError>)
      requires Valid()
      modifies `aeadCache
      ensures Valid() && r == secret.Open(data, now)
      ensures |data| < 34 ==> r == Err(PacketTooShort)
      ensures forall window, nonce, text ::
        SealedByPeer(secret, data, window, nonce, text) && IsWindow(window) && IsWindow(now + 1) ==>
          ComesOut(secret, data, window, text, now, r)
      ensures var w := Window(now, secret.timeWindow);
        old(aeadCache).Keys <= aeadCache.Keys <= old(aeadCache).Keys + {w - 1, w, w + 1}
    {
      forall window, nonce, text | SealedByPeer(secret, data, window, nonce, text) && IsWindow(window) && IsWindow(now + 1)
        ensures ComesOut(secret, data, window, text, now, secret.Open(data, now))
      {
        OpensPeer(secret, data, window, nonce, text, now);
      }
      if |data| < HEADER_SIZE + NONCE_SIZE + TAG_SIZE {
        return Err(PacketTooShort);
      }
      var header := ParseHeader(data).value;
      var encryptedPart := data[HEADER_SIZE..];
      var plaintext := [];
      ghost var current := Window(now, secret.timeWindow);
      var windows := Around(Window(now, secret.timeWindow));
      ghost var all := secret.OpenWith(windows, encryptedPart);
      var i := 0;
      while i < |windows|
        invariant 0 <= i <= |windows| && plaintext == []
        invariant Valid()
        invariant all == secret.OpenWith(windows[i..], encryptedPart)
        invariant old(aeadCache).Keys <= aeadCache.Keys <= old(aeadCache).Keys + {current - 1, current, current + 1}
      {
        var aead := GetAEAD(windows[i]);
        var attempt := if aead.Some? then aead.value.DecryptPacket(secret.crypto, encryptedPart) else None;
        if attempt.Some? {
          plaintext := attempt.value;
          break;
        }
        assert windows[i..][1..] == windows[i + 1..];
        i := i + 1;
      }
      assert plaintext == all.GetOr([]);
      if plaintext == [] {
        return Err(DecryptionFailed);
      }
      assert all == Some(plaintext) && secret.Open(data, now) == secret.Parsed(data, all);
      match ParsePacket(plaintext)
      case Err(e) =>
        return Err(e);
      case Ok(packet) =>
        return Ok(packet.(header := header));
    }

    /** Drops the keys more than two windows old, and no others. */
    method CleanupAEADCache(now: nat)
      requires Valid()
      modifies `aeadCache
      ensures Valid()
      ensures var c := Window(now, secret.timeWindow); aeadCache == old(aeadCache) - (set w | w in old(aeadCache) && c - w > 2)
    {
      var currentWindow := Window(now, secret.timeWindow);
      ghost var before := aeadCache;
      var todo: set<int> := aeadCache.Keys;
      while todo != {}
        invariant todo <= before.Keys
        invariant forall w :: w in aeadCache <==> w in before && (w in todo || currentWindow - w <= 2)
        invariant forall w :: w in aeadCache ==> aeadCache[w] == before[w]
        decreases todo
      {
        var w := Pick(todo);
        todo := todo - {w};
        if currentWindow - w > 2 {
          aeadCache := aeadCache - {w};
        }
      }
      ghost var gone := set w | w in before && currentWindow - w > 2;
      assert forall w :: w in aeadCache <==> w in before && !(currentWindow - w > 2);
      assert forall w :: w in before ==> (w in gone <==> currentWindow - w > 2);
      assert aeadCache == before - gone;
    }
  }
}
