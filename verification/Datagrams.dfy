/** UDP datagrams framed in a byte stream (internal/proxy/udp_associate.go, UDPDatagram),
    and what a reader makes of such a stream when it travels through a SendBuffer. */
module Datagrams {
  import opened Basics
  import opened Buffers

  const LIMIT := 65535

  /** The bytes WriteTo hands to the stream, a header and then the data. */
  function Framed(d: Bytes): Bytes
    requires |d| < 0x1_0000_0000
  {
    PutUint32(|d|) + d
  }

  ghost predicate Small(ds: seq<Bytes>) {
    forall i :: 0 <= i < |ds| ==> |ds[i]| <= LIMIT
  }

  function Stream(ds: seq<Bytes>): Bytes
    requires Small(ds)
  {
    if ds == [] then [] else Framed(ds[0]) + Stream(ds[1..])
  }

  datatype ReadError = EndOfStream | TooLarge

  /** The first datagram of a stream, and the rest. */
  function First(stream: Bytes): Result<(Bytes, Bytes), ReadError> {
    if |stream| < 4 then Err(EndOfStream)
    else
      var len := GetUint32(stream[..4]);
      if len > LIMIT then Err(TooLarge)
      else if |stream| < 4 + len then Err(EndOfStream)
      else Ok((stream[4..4 + len], stream[4 + len..]))
  }

  /** The datagrams that repeated reads give until one fails. */
  function ReadAll(stream: Bytes): seq<Bytes> {
    match First(stream)
    case Err(_) => []
    case Ok((d, rest)) => [d] + ReadAll(rest)
  }

  lemma FirstOfFramed(d: Bytes, rest: Bytes)
    requires |d| <= LIMIT
    ensures First(Framed(d) + rest) == Ok((d, rest))
  {
    var stream := Framed(d) + rest;
    Uint32RoundTrip(|d|);
    assert stream[..4] == PutUint32(|d|);
    assert stream[4..4 + |d|] == d;
    assert stream[4 + |d|..] == rest;
  }

  /** A stream cut off before the end of its first frame has no first datagram. */
  lemma CutShort(d: Bytes, stream: Bytes)
    requires |d| <= LIMIT && stream <= Framed(d) && |stream| < |Framed(d)|
    ensures First(stream) == Err(EndOfStream)
  {
    Uint32RoundTrip(|d|);
    if |stream| >= 4 {
      assert stream[..4] == Framed(d)[..4] == PutUint32(|d|);
    }
  }

  /** A frame is the length in four bytes, the most significant first, and the data. It is read back if and only if the data
      are at most 65535 bytes long. */
  lemma FrameReads(d: Bytes)
    requires |d| < 0x1_0000_0000
    ensures |Framed(d)| == 4 + |d| && Value(Framed(d)[..4]) == |d| && Framed(d)[4..] == d
    ensures First(Framed(d)) == if |d| <= 65535 then Ok((d, [])) else Err(TooLarge)
  {
    BigEndian(0, |d|);
    Uint32RoundTrip(|d|);
    assert Framed(d)[..4] == PutUint32(|d|);
    assert Framed(d) == Framed(d) + [];
    if |d| <= 65535 {
      FirstOfFramed(d, []);
    }
  }

  lemma LoneHeader(d: Bytes)
    requires 0 < |d| <= LIMIT
    ensures First([]) == Err(EndOfStream) && First(PutUint32(|d|)) == Err(EndOfStream)
  {
    CutShort(d, PutUint32(|d|));
    CutShort(d, []);
  }

  lemma CutReads(ds: seq<Bytes>, stream: Bytes)
    requires Small(ds) && ds != [] && stream <= Stream(ds) && |stream| < |Framed(ds[0])|
    ensures |ReadAll(stream)| == 0 && |stream| < |Stream(ds[..1])|
  {
    var frame := Framed(ds[0]);
    assert stream == (frame + Stream(ds[1..]))[..|stream|] == frame[..|stream|];
    CutShort(ds[0], stream);
    assert |ds[..1][1..]| == 0;
    assert Stream(ds[..1]) == frame + Stream(ds[..1][1..]);
  }

  lemma ReadOne(d: Bytes, rest: Bytes)
    requires |d| <= LIMIT
    ensures ReadAll(Framed(d) + rest) == [d] + ReadAll(rest)
  {
    FirstOfFramed(d, rest);
  }

  lemma SplitAt(frame: Bytes, rest: Bytes, stream: Bytes) returns (tail: Bytes)
    requires stream <= frame + rest && |stream| >= |frame|
    ensures stream == frame + tail && tail <= rest
  {
    tail := stream[|frame|..];
    assert stream[..|frame|] == (frame + rest)[..|frame|] == frame;
    assert tail == (frame + rest)[..|stream|][|frame|..];
    assert tail == rest[..|tail|];
  }

  /** From any prefix of a stream of datagrams, exactly the datagrams that are complete in it are read, in order. */
  lemma {:induction false} PrefixReads(ds: seq<Bytes>, stream: Bytes)
    requires Small(ds) && stream <= Stream(ds)
    ensures ReadAll(stream) <= ds
    ensures Stream(ReadAll(stream)) <= stream
    ensures |ReadAll(stream)| < |ds| ==> |stream| < |Stream(ds[..|ReadAll(stream)| + 1])|
    decreases |ds|
  {
    hide First, Framed;
    if ds == [] {
      ReadNone();
    } else if |stream| < |Framed(ds[0])| {
      CutReads(ds, stream);
    } else {
      var frame := Framed(ds[0]);
      var tail := SplitAt(frame, Stream(ds[1..]), stream);
      ReadOne(ds[0], tail);
      PrefixReads(ds[1..], tail);
      var n := |ReadAll(tail)|;
      assert Stream([ds[0]] + ReadAll(tail)) == frame + Stream(ReadAll(tail)) by {
        assert ([ds[0]] + ReadAll(tail))[1..] == ReadAll(tail);
      }
      if n + 1 < |ds| {
        assert ds[..n + 2][1..] == ds[1..][..n + 1];
      }
    }
  }

  lemma ReadNone()
    ensures ReadAll([]) == []
  {
  }

  /** Everything written is everything read. */
  lemma {:induction false} ReadsBack(ds: seq<Bytes>)
    requires Small(ds)
    ensures ReadAll(Stream(ds)) == ds
  {
    if ds != [] {
      ReadOne(ds[0], Stream(ds[1..]));
      ReadsBack(ds[1..]);
    } else {
      ReadNone();
    }
  }

  lemma {:induction false} StreamGrows(ds: seq<Bytes>, m: nat, n: nat)
    requires Small(ds) && m <= n <= |ds|
    ensures |Stream(ds[..m])| <= |Stream(ds[..n])|
    decreases |ds|
  {
    if m > 0 {
      assert ds[..m][1..] == ds[1..][..m - 1] && ds[..n][1..] == ds[1..][..n - 1];
      StreamGrows(ds[1..], m - 1, n - 1);
    }
  }

  /** A prefix of a stream yields its first n datagrams exactly when it is long enough to hold them. */
  lemma ReadsWhatFits(ds: seq<Bytes>, stream: Bytes, n: nat)
    requires Small(ds) && stream <= Stream(ds) && n <= |ds|
    ensures n <= |ReadAll(stream)| <==> |Stream(ds[..n])| <= |stream|
  {
    PrefixReads(ds, stream);
    var k := |ReadAll(stream)|;
    assert ds[..k] == ReadAll(stream);
    if n <= k {
      StreamGrows(ds, n, k);
    } else {
      StreamGrows(ds, k + 1, n);
    }
  }

  /** One writer sends datagrams through a SendBuffer, which readers drain in any chunks, in any interleaving: at every
      moment the bytes read give a prefix of the datagrams sent. */
  lemma ThroughBuffer(cfg: Config, threads: nat, actions: seq<Action>, w: nat, ds: seq<Bytes>)
    requires cfg.writersWait && w < threads && Small(ds)
    requires Run(cfg, Start(threads), actions) && OnlyWriter(actions, w)
    requires Offered(actions, w) <= Stream(ds)
    ensures var m := After(cfg, Start(threads), actions); m.read <= Stream(ds) && ReadAll(m.read) <= ds
  {
    var m := After(cfg, Start(threads), actions);
    RunKeepsGood(cfg, Start(threads), actions);
    WrittenInOrder(cfg, Start(threads), actions, w);
    assert [] + [] + Offered(actions, w) == Offered(actions, w);
    assert m.read <= m.written;
    PrefixReads(ds, m.read);
  }

  /** Once the writer has written all of them and the open buffer is drained, the datagrams read are those sent. */
  lemma AllThrough(cfg: Config, threads: nat, actions: seq<Action>, w: nat, ds: seq<Bytes>)
    requires cfg.writersWait && w < threads && Small(ds)
    requires Run(cfg, Start(threads), actions) && OnlyWriter(actions, w)
    requires Offered(actions, w) == Stream(ds)
    requires var m := After(cfg, Start(threads), actions);
      w < |m.threads| && m.threads[w].Outside? && !m.closed && m.buf == []
    ensures ReadAll(After(cfg, Start(threads), actions).read) == ds
  {
    AllRead(cfg, threads, actions, w);
    ReadsBack(ds);
  }

  /** A reader that goes on gets there, after a number of reads that is known beforehand. */
  lemma AllArrive(cfg: Config, threads: nat, actions: seq<Action>, w: nat, ds: seq<Bytes>, t: nat, size: nat)
    requires cfg.writersWait && w < threads && Small(ds)
    requires Run(cfg, Start(threads), actions) && OnlyWriter(actions, w) && Offered(actions, w) == Stream(ds)
    requires size > 0 && cfg.maxBurst != Some(0)
    requires var m := After(cfg, Start(threads), actions);
      w < |m.threads| && m.threads[w].Outside? && !m.closed && t < |m.threads| && m.threads[t].Outside?
    ensures var all := actions + Reads(t, size, Enough(|After(cfg, Start(threads), actions).buf|, Chunk(cfg, size)));
      Run(cfg, Start(threads), all) && ReadAll(After(cfg, Start(threads), all).read) == ds
  {
    AllArrives(cfg, threads, actions, w, t, size);
    ReadsBack(ds);
  }

  /** When the buffer is drained, closed or not, exactly those datagrams have been read that were accepted whole:
      the first n, if and only if their frames fit into the bytes accepted. */
  lemma DrainedReads(cfg: Config, threads: nat, actions: seq<Action>, w: nat, ds: seq<Bytes>, n: nat)
    requires cfg.writersWait && w < threads && Small(ds) && n <= |ds|
    requires Run(cfg, Start(threads), actions) && OnlyWriter(actions, w)
    requires Offered(actions, w) <= Stream(ds) && After(cfg, Start(threads), actions).buf == []
    ensures var m := After(cfg, Start(threads), actions);
      n <= |ReadAll(m.read)| <==> |Stream(ds[..n])| <= |m.written|
  {
    ThroughBuffer(cfg, threads, actions, w, ds);
    RunKeepsGood(cfg, Start(threads), actions);
    ReadsWhatFits(ds, After(cfg, Start(threads), actions).read, n);
  }

  // The methods, over a stream whose writes may fail and whose reads return chunks of any size

  class Sink {
    var written: Bytes

    constructor ()
      ensures written == []
    {
      written := [];
    }

    /** One Write: all of the bytes, or an error and none of them. */
    method Write(data: Bytes, works: bool) returns (ok: bool)
      modifies this
      ensures ok == works && written == old(written) + if works then data else []
    {
      if works {
        written := written + data;
      }
      return works;
    }

    /** WriteTo: a header and then the data. Without an error a frame has been written; an error may leave a lone
        header, from which nothing is read. */
    method WriteDatagram(d: Bytes, headerWorks: bool, dataWorks: bool) returns (ok: bool)
      modifies this
      ensures ok == (headerWorks && dataWorks)
      ensures ok && |d| < 0x1_0000_0000 ==> written == old(written) + Framed(d)
      ensures !ok && 0 < |d| <= LIMIT ==> old(written) <= written && First(written[|old(written)|..]) == Err(EndOfStream)
    {
      hide PutUint32, First;
      var header := PutUint32(|d| % 0x1_0000_0000);
      if 0 < |d| <= LIMIT {
        LoneHeader(d);
      }
      ok := Write(header, headerWorks);
      if ok {
        ok := Write(d, dataWorks);
      }
      assert written[|old(written)|..] == (if !headerWorks then [] else if !dataWorks then header else header + d);
    }
  }

  class Source {
    var rest: Bytes

    constructor (stream: Bytes)
      ensures rest == stream
    {
      rest := stream;
    }

    /** One Read: some of the bytes that are left, at most as many as there is room for. */
    method Read(room: nat, chunk: nat) returns (p: Bytes)
      modifies this
      ensures old(rest) == p + rest
      ensures |p| <= room && (room > 0 && old(rest) != [] ==> p != [])
    {
      var n := Min(Min(|rest|, room), if chunk == 0 then 1 else chunk);
      p := rest[..n];
      rest := rest[n..];
    }

    /** io.ReadFull: reads until the buffer is full or the stream ends. */
    method ReadFull(size: nat, chunks: nat -> nat) returns (r: Result<Bytes, ReadError>)
      modifies this
      ensures |old(rest)| >= size ==> r == Ok(old(rest)[..size]) && rest == old(rest)[size..]
      ensures |old(rest)| < size ==> r == Err(EndOfStream) && rest == []
    {
      var got := [];
      var i := 0;
      while |got| < size
        invariant |got| <= size && old(rest) == got + rest
        decreases size - |got|
      {
        if |rest| == 0 {
          return Err(EndOfStream);
        }
        var p := Read(size - |got|, chunks(i));
        got := got + p;
        i := i + 1;
      }
      return Ok(got);
    }

    /** ReadFrom: a header, then as many bytes as it announces. */
    method ReadDatagram(chunks: nat -> nat) returns (r: Result<Bytes, ReadError>)
      modifies this
      ensures match First(old(rest))
              case Ok((d, after)) => r == Ok(d) && rest == after
              case Err(e) => r == Err(e)
    {
      var header := ReadFull(4, chunks);
      if header.Err? {
        return header;
      }
      var length := GetUint32(header.value);
      if length > LIMIT {
        return Err(TooLarge);
      }
      ghost var body := rest;
      r := ReadFull(length, chunks);
      assert length <= |body| ==> old(rest)[4..4 + length] == body[..length];
      assert length <= |body| ==> old(rest)[4 + length..] == body[length..];
    }
  }
}
