/** Splitting a packet into shards, and getting it back (internal/fec/fec.go). */
module Fec {
  import opened Basics
  import opened ErasureCode

  datatype FecError = BadShardCount | TooManyShards | LibraryRefused | EmptyData | NotInitialized | EncodeFailed
                    | WrongCount | TooFewShards | RebuildFailed | VerifyFailed

  function ShardSize(len: nat, k: nat): nat
    requires k > 0
  {
    (len + k - 1) / k
  }

  function Zeros(n: nat): (z: Bytes)
    ensures |z| == n
  {
    seq(n, _ => 0)
  }

  /** data cut into k shards of the given size, the last ones padded with zeros. */
  function Split(data: Bytes, k: nat, size: nat): (shards: seq<Shard>)
    ensures |shards| == k && Uniform(shards, size)
    decreases k
  {
    if k == 0 then [] else [Pad(data, size)] + Split(data[Min(size, |data|)..], k - 1, size)
  }

  /** What copying data into a zeroed buffer of the given size leaves there. */
  function Pad(data: Bytes, size: nat): (shard: Shard)
    ensures |shard| == size
  {
    data[..Min(size, |data|)] + Zeros(size - Min(size, |data|))
  }

  function Concat(shards: seq<Shard>): Bytes {
    if shards == [] then [] else shards[0] + Concat(shards[1..])
  }

  function Truncate(data: Bytes, len: nat): Bytes { data[..Min(len, |data|)] }

  /** The shards of a packet. */
  function Word(lib: Library, k: nat, p: nat, data: Bytes): seq<Shard>
    requires k > 0
  {
    Encoded(lib, p, Split(data, k, ShardSize(|data|, k)))
  }

  // Splitting and concatenating

  lemma LessOne(k: nat, size: nat)
    requires k > 0
    ensures (k - 1) * size == k * size - size >= 0
  {
    assert (k - 1) * size >= 0;
  }

  lemma PadFull(data: Bytes, size: nat, rest: nat)
    requires size <= |data|
    ensures Pad(data, size) + (data[size..] + Zeros(rest)) == data + Zeros(rest)
  {
    assert data == data[..size] + data[size..];
  }

  lemma PadShort(data: Bytes, size: nat, rest: nat)
    requires |data| <= size
    ensures Pad(data, size) + ([] + Zeros(rest)) == data + Zeros(size - |data| + rest)
  {
  }

  /** The pieces of a split, joined again, are the data followed by padding. */
  lemma {:induction false} ConcatSplit(data: Bytes, k: nat, size: nat)
    requires |data| <= k * size
    ensures Concat(Split(data, k, size)) == data + Zeros(k * size - |data|)
    decreases k
  {
    hide Pad, Zeros;
    if k > 0 {
      LessOne(k, size);
      var rest := (k - 1) * size;
      if size <= |data| {
        ConcatSplit(data[size..], k - 1, size);
        PadFull(data, size, rest - (|data| - size));
      } else {
        assert data[|data|..] == [];
        ConcatSplit([], k - 1, size);
        PadShort(data, size, rest);
      }
    }
  }

  lemma SizeCovers(len: nat, k: nat)
    requires k > 0
    ensures len <= k * ShardSize(len, k)
    ensures len > 0 ==> ShardSize(len, k) > 0
  {
    var size := ShardSize(len, k);
    assert len + k - 1 == size * k + (len + k - 1) % k;
    assert len > 0 ==> size * k > 0;
  }

  lemma Scaled(a: nat, b: nat, k: nat)
    requires a <= b
    ensures a * k <= b * k
  {
    assert (b - a) * k >= 0;
  }

  lemma Between(x: nat, k: nat)
    requires k > 0
    ensures x / k * k <= x < (x / k + 1) * k
  {
    assert x == x / k * k + x % k;
  }

  /** The size is the least that will do. */
  lemma SizeLeast(len: nat, k: nat, size: nat)
    requires k > 0
    ensures len <= k * size <==> ShardSize(len, k) <= size
  {
    var least := ShardSize(len, k);
    Between(len + k - 1, k);
    assert (least + 1) * k == least * k + k && k * size == size * k && (size + 1) * k == size * k + k;
    hide ShardSize;
    if least <= size {
      Scaled(least, size, k);
    } else {
      Scaled(size + 1, least, k);
    }
  }

  lemma {:induction false} ConcatAppend(a: seq<Shard>, b: seq<Shard>)
    ensures Concat(a + b) == Concat(a) + Concat(b)
  {
    if a == [] {
      assert a + b == b;
    } else {
      assert (a + b)[1..] == a[1..] + b;
      ConcatAppend(a[1..], b);
    }
  }

  lemma {:induction false} CountAppend(a: seq<Option<Shard>>, b: seq<Option<Shard>>)
    ensures CountPresent(a + b) == CountPresent(a) + CountPresent(b)
  {
    if a == [] {
      assert a + b == b;
    } else {
      assert (a + b)[1..] == a[1..] + b;
      CountAppend(a[1..], b);
    }
  }

  /** Where a slice has a shard that is neither nil nor empty. */
  function Presents(shards: seq<Option<Shard>>): set<int> {
    set i | 0 <= i < |shards| && shards[i].Some? && |shards[i].value| > 0
  }

  lemma {:induction false} PresentAre(shards: seq<Option<Shard>>)
    ensures CountPresent(shards) == |Presents(shards)|
    decreases |shards|
  {
    if shards == [] {
      assert Presents(shards) == {};
    } else {
      var n := |shards| - 1;
      PresentAre(shards[..n]);
      PresentsLast(shards, n);
      CountAppend(shards[..n], [shards[n]]);
      assert shards == shards[..n] + [shards[n]];
      assert CountPresent([shards[n]]) == if Present(shards[n]) then 1 else 0;
      hide CountPresent, Presents;
    }
  }

  lemma PresentsLast(shards: seq<Option<Shard>>, n: nat)
    requires n == |shards| - 1
    ensures |Presents(shards)| == |Presents(shards[..n])| + if Present(shards[n]) then 1 else 0
  {
    assert Presents(shards) == Presents(shards[..n]) + if Present(shards[n]) then {n} else {};
  }

  // Decoding as a function of the shards

  datatype Decoding = Decoding(shards: seq<Option<Shard>>, result: Result<Bytes, FecError>)

  function Filled(word: seq<Shard>): (shards: seq<Option<Shard>>)
    ensures |shards| == |word| && forall i :: 0 <= i < |word| ==> shards[i] == Some(word[i])
  {
    seq(|word|, i requires 0 <= i < |word| => Some(word[i]))
  }

  /** The outcome of Decode and what it leaves in the shard slice: when verification fails
      the slice has been filled in all the same. */
  function DecodeShards(lib: Library, k: nat, p: nat, shards: seq<Option<Shard>>, dataLen: nat): Decoding {
    if |shards| != k + p then Decoding(shards, Err(WrongCount))
    else if CountPresent(shards) < k then Decoding(shards, Err(TooFewShards))
    else
      match lib.rebuild(k, p, shards)
      case None => Decoding(shards, Err(RebuildFailed))
      case Some(word) =>
        if !IsWord(lib, k, word) then Decoding(Filled(word), Err(VerifyFailed))
        else Decoding(Filled(word), Ok(Truncate(Concat(word[..k]), dataLen)))
  }

  /** Once shards of an encoded packet have been lost, Decode gives the packet back, cut to the length
      asked for or followed by its padding, exactly when at least k shards are left. */
  lemma DecodeErased(lib: Library, k: nat, p: nat, data: Bytes, shards: seq<Option<Shard>>, dataLen: nat)
    requires Contract(lib) && Legal(k, p) && data != []
    requires Erased(shards, Word(lib, k, p, data))
    ensures |data| <= k * ShardSize(|data|, k)
    ensures CountPresent(shards) >= k ==>
              DecodeShards(lib, k, p, shards, dataLen)
              == Decoding(Filled(Word(lib, k, p, data)), Ok(Truncate(data + Zeros(k * ShardSize(|data|, k) - |data|), dataLen)))
    ensures CountPresent(shards) < k ==> DecodeShards(lib, k, p, shards, dataLen) == Decoding(shards, Err(TooFewShards))
    ensures CountPresent(shards) >= k ==>
      var r := DecodeShards(lib, k, p, shards, dataLen).result;
      && r.Ok? && |r.value| == Min(dataLen, k * ShardSize(|data|, k))
      && forall i :: 0 <= i < |r.value| ==> r.value[i] == if i < |data| then data[i] else 0
  {
    var size := ShardSize(|data|, k);
    var pieces := Split(data, k, size);
    var word := Word(lib, k, p, data);
    SizeCovers(|data|, k);
    EncodedIsWord(lib, k, p, pieces, size);
    ConcatSplit(data, k, size);
    assert word[..k] == pieces;
    assert |word[0]| == size;
    if CountPresent(shards) >= k {
      assert lib.rebuild(k, p, shards) == Some(word);
    }
  }

  lemma TruncatePadded(data: Bytes, padding: Bytes, dataLen: nat)
    requires dataLen <= |data|
    ensures Truncate(data + padding, dataLen) == data[..dataLen]
  {
  }

  /** Whatever Decode returns, on any shards at all, is the content of a word that agrees with
      every shard that was present. */
  lemma DecodeSound(lib: Library, k: nat, p: nat, shards: seq<Option<Shard>>, dataLen: nat)
    requires Contract(lib) && DecodeShards(lib, k, p, shards, dataLen).result.Ok?
    ensures exists word ::
              && IsWord(lib, k, word) && Erased(shards, word)
              && DecodeShards(lib, k, p, shards, dataLen) == Decoding(Filled(word), Ok(Truncate(Concat(word[..k]), dataLen)))
  {
    var word := lib.rebuild(k, p, shards).value;
    assert Erased(shards, word);
  }

  /** Decoding never takes a shard away: it keeps the number of slots, and every present shard. It fills every slot if it gets
      as far as verifying, and none if it does not. */
  lemma DecodeKeeps(lib: Library, k: nat, p: nat, shards: seq<Option<Shard>>, dataLen: nat)
    requires Contract(lib)
    ensures var d := DecodeShards(lib, k, p, shards, dataLen);
      && (d.result == Err(WrongCount) <==> |shards| != k + p)
      && (d.result == Err(TooFewShards) <==> |shards| == k + p && CountPresent(shards) < k)
      && (d.result.Err? ==> d.result.error in {WrongCount, TooFewShards, RebuildFailed, VerifyFailed})
      && if d.result.Ok? || d.result.error == VerifyFailed then forall i :: 0 <= i < |shards| ==> d.shards[i].Some?
         else d.shards == shards
    ensures var after := DecodeShards(lib, k, p, shards, dataLen).shards;
      && |after| == |shards|
      && forall i :: 0 <= i < |shards| ==> (shards[i].Some? ==> after[i].Some?) && (Present(shards[i]) ==> after[i] == shards[i])
  {
  }

  // The methods

  /** The library's Encode: fills in the parity shards of the slice, or refuses shards of this size. */
  method FillParity(lib: Library, k: nat, p: nat, shards: array<Shard>) returns (ok: bool)
    requires Contract(lib) && k >= 1 && shards.Length == k + p && Uniform(shards[..], |shards[0]|)
    modifies shards
    ensures ok == lib.encodes(k, p, old(|shards[0]|))
    ensures shards[..] == if ok then Encoded(lib, p, old(shards[..k])) else old(shards[..])
  {
    if !lib.encodes(k, p, |shards[0]|) {
      return false;
    }
    var data := shards[..k];
    EncodedIsWord(lib, k, p, data, |shards[0]|);
    var parity := lib.parity(p, data);
    forall i | 0 <= i < p {
      shards[k + i] := parity[i];
    }
    assert shards[..k] == data;
    assert shards[k..] == parity;
    assert shards[..] == shards[..k] + shards[k..];
    return true;
  }

  lemma SplitFirst(data: Bytes, offset: nat, k: nat, size: nat)
    requires k > 0 && offset <= |data|
    ensures var n := Min(size, |data| - offset);
      && Split(data[offset..], k, size)[0] == data[offset..offset + n] + Zeros(size)[n..]
      && Split(data[offset..], k, size)[1..] == Split(data[offset + n..], k - 1, size)
  {
    var n := Min(size, |data| - offset);
    assert data[offset..][..n] == data[offset..offset + n];
    assert data[offset..][n..] == data[offset + n..];
    assert Zeros(size)[n..] == Zeros(size - n);
  }

  /** Copies data into the first k shards of the zeroed slice, piece after piece. */
  method CopyData(data: Bytes, k: nat, size: nat, shards: array<Shard>)
    requires k <= shards.Length
    requires forall i :: 0 <= i < shards.Length ==> shards[i] == Zeros(size)
    modifies shards
    ensures shards[..k] == Split(data, k, size)
    ensures forall i :: k <= i < shards.Length ==> shards[i] == Zeros(size)
  {
    hide Split, Zeros;
    ghost var pieces := Split(data, k, size);
    var offset := 0;
    var i := 0;
    while i < k
      invariant 0 <= i <= k && offset <= |data|
      invariant pieces[i..] == Split(data[offset..], k - i, size)
      invariant forall j :: 0 <= j < i ==> shards[j] == pieces[j]
      invariant forall j :: i <= j < shards.Length ==> shards[j] == Zeros(size)
    {
      if offset >= |data| {
        break;
      }
      var n := Min(size, |data| - offset);
      SplitFirst(data, offset, k - i, size);
      assert pieces[i + 1..] == pieces[i..][1..];
      assert pieces[i] == pieces[i..][0];
      shards[i] := data[offset..offset + n] + shards[i][n..];
      offset := offset + n;
      i := i + 1;
    }
    if i < k {
      assert data[offset..] == [];
      SplitNothing(k - i, size);
      assert forall j :: i <= j < k ==> pieces[j] == pieces[i..][j - i];
    }
  }

  /** Splits a packet and fills in the parity shards. */
  method EncodeShards(lib: Library, k: nat, p: nat, data: Bytes) returns (r: Result<array<Shard>, FecError>)
    requires Contract(lib) && k >= 1 && data != []
    ensures Legal(k, p) ==> r.Ok?
    ensures r.Ok? <==> lib.encodes(k, p, ShardSize(|data|, k))
    ensures r.Ok? ==> fresh(r.value) && r.value[..] == Word(lib, k, p, data) && r.value.Length == k + p
    ensures r.Err? ==> r.error == EncodeFailed
  {
    var size := ShardSize(|data|, k);
    SizeCovers(|data|, k);
    var shards := new Shard[k + p](_ => Zeros(size));
    CopyData(data, k, size, shards);
    assert forall i :: 0 <= i < k ==> shards[i] == shards[..k][i];
    var ok := FillParity(lib, k, p, shards);
    return if ok then Ok(shards) else Err(EncodeFailed);
  }

  lemma {:induction false} SplitNothing(k: nat, size: nat)
    ensures forall i :: 0 <= i < k ==> Split([], k, size)[i] == Zeros(size)
    decreases k
  {
    if k > 0 {
      SplitNothing(k - 1, size);
    }
  }

  /** The library's Reconstruct: fills in the missing shards of the slice, or reports an error. */
  method Reconstruct(lib: Library, k: nat, p: nat, shards: array<Option<Shard>>) returns (ok: bool)
    requires Contract(lib) && shards.Length == k + p
    modifies shards
    ensures ok == lib.rebuild(k, p, old(shards[..])).Some?
    ensures shards[..] == if ok then Filled(lib.rebuild(k, p, old(shards[..])).value) else old(shards[..])
  {
    match lib.rebuild(k, p, shards[..])
    case None =>
      return false;
    case Some(word) =>
      assert Erased(old(shards[..]), word);
      forall i | 0 <= i < shards.Length {
        shards[i] := Some(word[i]);
      }
      return true;
  }

  datatype FEC = FEC(dataShards: nat, parityShards: nat, lib: Library) {

    predicate Valid() {
      Legal(dataShards, parityShards)
    }

    static function New(lib: Library, dataShards: int, parityShards: int): (r: Result<FEC, FecError>)
      ensures r.Ok? ==> Legal(dataShards, parityShards) && r.value == FEC(dataShards, parityShards, lib)
      ensures Contract(lib) ==> (r.Ok? <==> Legal(dataShards, parityShards))
    {
      if dataShards <= 0 || parityShards <= 0 then Err(BadShardCount)
      else if dataShards + parityShards > 256 then Err(TooManyShards)
      else if !lib.accepts(dataShards, parityShards) then Err(LibraryRefused)
      else Ok(FEC(dataShards, parityShards, lib))
    }

    method Encode(data: Bytes) returns (r: Result<array<Shard>, FecError>)
      requires Contract(lib) && Valid()
      ensures data == [] ==> r == Err(EmptyData)
      ensures data != [] ==> r.Ok? && fresh(r.value) && r.value[..] == Word(lib, dataShards, parityShards, data)
    {
      if |data| == 0 {
        return Err(EmptyData);
      }
      r := EncodeShards(lib, dataShards, parityShards, data);
    }

    method CanRecover(shards: array<Option<Shard>>) returns (ok: bool)
      ensures ok == (CountPresent(shards[..]) >= dataShards)
      ensures ok == (|set i | 0 <= i < shards.Length && shards[i].Some? && |shards[i].value| > 0| >= dataShards)
    {
      var available := Count(shards);
      return available >= dataShards;
    }

    method Decode(shards: array<Option<Shard>>, dataLen: nat) returns (r: Result<Bytes, FecError>)
      requires Contract(lib)
      modifies shards
      ensures Decoding(shards[..], r) == DecodeShards(lib, dataShards, parityShards, old(shards[..]), dataLen)
    {
      if shards.Length != dataShards + parityShards {
        return Err(WrongCount);
      }
      var available := Count(shards);
      if available < dataShards {
        return Err(TooFewShards);
      }
      var ok := Reconstruct(lib, dataShards, parityShards, shards);
      if !ok {
        return Err(RebuildFailed);
      }
      ghost var word := lib.rebuild(dataShards, parityShards, old(shards[..])).value;
      var full := seq(shards.Length, i requires 0 <= i < shards.Length reads shards => if shards[i].Some? then shards[i].value else []);
      assert full == word;
      if !IsWord(lib, dataShards, full) {
        return Err(VerifyFailed);
      }
      var data := JoinShards(full, dataShards, dataLen);
      return Ok(data);
    }
  }

  /** How many shards of the slice are neither nil nor empty. */
  method Count(shards: array<Option<Shard>>) returns (available: nat)
    ensures available == CountPresent(shards[..])
    ensures available == |set i | 0 <= i < shards.Length && shards[i].Some? && |shards[i].value| > 0|
  {
    available := 0;
    PresentAre(shards[..]);
    for i := 0 to shards.Length
      invariant available == CountPresent(shards[..i])
    {
      CountAppend(shards[..i], [shards[i]]);
      assert shards[..i + 1] == shards[..i] + [shards[i]];
      if Present(shards[i]) {
        available := available + 1;
      }
    }
    assert shards[..] == shards[..shards.Length];
    assert Presents(shards[..]) == set i | 0 <= i < shards.Length && shards[i].Some? && |shards[i].value| > 0;
  }

  /** Appends data shards until there are enough bytes, then cuts to length. */
  method JoinShards(word: seq<Shard>, k: nat, dataLen: nat) returns (data: Bytes)
    requires k <= |word|
    ensures data == Truncate(Concat(word[..k]), dataLen)
  {
    data := [];
    var i := 0;
    while i < k
      invariant 0 <= i <= k
      invariant data == Concat(word[..i])
    {
      data := data + word[i];
      ConcatAppend(word[..i], [word[i]]);
      assert word[..i + 1] == word[..i] + [word[i]];
      i := i + 1;
      if |data| >= dataLen {
        break;
      }
    }
    ConcatAppend(word[..i], word[i..k]);
    assert word[..k] == word[..i] + word[i..k];
    if |data| > dataLen {
      data := data[..dataLen];
    }
  }
}
