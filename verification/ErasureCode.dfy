/** What the tunnel's error correction asks of the Reed-Solomon library it calls.

    The library is outside the repository, so it appears here as a record of
    functions; everything in the other modules holds for any library that meets
    Contract. ReedSolomon.dfy constructs one that does.
 */
module ErasureCode {
  import opened Basics

  type Shard = Bytes

  datatype Library = Library(
    /** Whether the library's New accepts this many data and parity shards. */
    accepts: (int, int) -> bool,
    /** Whether Encode, for k data and p parity shards, takes shards of this size. */
    encodes: (int, int, nat) -> bool,
    /** The parity shards for given data shards. */
    parity: (nat, seq<Shard>) -> seq<Shard>,
    /** Reconstruct for k data and p parity shards: None is an error that leaves the shards alone. */
    rebuild: (nat, nat, seq<Option<Shard>>) -> Option<seq<Shard>>)

  /** A shard counts as available when it is neither nil nor empty. */
  predicate Present(s: Option<Shard>) {
    s.Some? && s.value != []
  }

  function CountPresent(shards: seq<Option<Shard>>): (n: nat)
    ensures n <= |shards|
  {
    if shards == [] then 0 else (if Present(shards[0]) then 1 else 0) + CountPresent(shards[1..])
  }

  predicate Uniform(shards: seq<Shard>, size: nat) {
    forall i :: 0 <= i < |shards| ==> |shards[i]| == size
  }

  predicate Legal(k: int, p: int) {
    k >= 1 && p >= 1 && k + p <= 256
  }

  /** The shards the library's Verify accepts: equally long, with the parity shards that the data shards have. */
  predicate IsWord(lib: Library, k: nat, word: seq<Shard>)
  {
    && 1 <= k <= |word|
    && Uniform(word, |word[0]|)
    && word[k..] == lib.parity(|word| - k, word[..k])
  }

  /** shards is word with some shards missing. */
  ghost predicate Erased(shards: seq<Option<Shard>>, word: seq<Shard>) {
    && |shards| == |word|
    && forall i :: 0 <= i < |shards| ==> Present(shards[i]) ==> shards[i].value == word[i]
  }

  ghost predicate ParityShape(lib: Library) {
    forall k: nat, p: nat, size: nat, data: seq<Shard> {:trigger lib.encodes(k, p, size), lib.parity(p, data)} ::
      lib.encodes(k, p, size) && |data| == k && Uniform(data, size) ==>
        |lib.parity(p, data)| == p && Uniform(lib.parity(p, data), size)
  }

  ghost predicate RebuildKeeps(lib: Library) {
    forall k: nat, p: nat, shards {:trigger lib.rebuild(k, p, shards)} ::
      lib.rebuild(k, p, shards).Some? ==>
        |shards| == k + p && Erased(shards, lib.rebuild(k, p, shards).value)
  }

  ghost predicate RebuildRecovers(lib: Library) {
    forall k: nat, p: nat, shards, word {:trigger lib.rebuild(k, p, shards), IsWord(lib, k, word)} ::
      Legal(k, p) && |word| == k + p && IsWord(lib, k, word) && word[0] != [] &&
      Erased(shards, word) && CountPresent(shards) >= k ==>
        lib.rebuild(k, p, shards) == Some(word)
  }

  /** The library is a maximum distance separable code: any k shards of a word
      of k + p shards determine the word, and Reconstruct finds it. What it does with more than
      256 shards, which it may accept, is left open, except that what it encodes has p parity shards. */
  ghost predicate Contract(lib: Library) {
    && (forall k: int, p: int {:trigger lib.accepts(k, p)} ::
          (Legal(k, p) ==> lib.accepts(k, p)) && (lib.accepts(k, p) ==> k >= 1 && p >= 0))
    && (forall k: int, p: int, size: nat {:trigger lib.encodes(k, p, size)} :: Legal(k, p) && size > 0 ==> lib.encodes(k, p, size))
    && ParityShape(lib)
    && RebuildKeeps(lib)
    && RebuildRecovers(lib)
  }

  // Consequences, in the form the users need them

  function Encoded(lib: Library, p: nat, data: seq<Shard>): seq<Shard> {
    data + lib.parity(p, data)
  }

  lemma EncodedIsWord(lib: Library, k: nat, p: nat, data: seq<Shard>, size: nat)
    requires Contract(lib) && k >= 1 && lib.encodes(k, p, size) && |data| == k && Uniform(data, size)
    ensures |Encoded(lib, p, data)| == k + p && Uniform(Encoded(lib, p, data), size)
    ensures IsWord(lib, k, Encoded(lib, p, data))
  {
    var w := Encoded(lib, p, data);
    assert |lib.parity(p, data)| == p && Uniform(lib.parity(p, data), size);
    assert w[..k] == data;
    assert w[k..] == lib.parity(p, data);
  }
}
