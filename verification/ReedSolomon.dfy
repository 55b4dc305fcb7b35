/** A library that meets the contract for every legal number of shards: shard i of a
    word holds, column by column, the values at point i of the polynomials through
    the data shards at points 0 to k-1.
 */
module ReedSolomon {
  import opened Basics
  import opened Fields
  import opened Polynomials
  import opened GF256
  import opened ErasureCode

  function Point(i: nat): Elem { FromByte(i % 256) }

  function Points(indices: seq<nat>): (xs: seq<Elem>)
    ensures |xs| == |indices|
  {
    seq(|indices|, i requires 0 <= i < |indices| => Point(indices[i]))
  }

  function UpTo(k: nat): (s: seq<nat>)
    ensures |s| == k && forall i :: 0 <= i < k ==> s[i] == i
  {
    seq(k, i => i)
  }

  function Column(shards: seq<Shard>, c: nat): (ys: seq<Elem>)
    ensures |ys| == |shards|
  {
    seq(|shards|, i requires 0 <= i < |shards| => if c < |shards[i]| then FromByte(shards[i][c]) else ZERO)
  }

  /** The symbol in column c at point i, given shards at the points of the indices. */
  function Symbol(indices: seq<nat>, shards: seq<Shard>, i: nat, c: nat): byte
    requires |indices| == |shards|
  {
    ToByte(Interpolate(GF, Points(indices), Column(shards, c), Point(i)))
  }

  function ShardAt(indices: seq<nat>, shards: seq<Shard>, size: nat, i: nat): (s: Shard)
    requires |indices| == |shards|
    ensures |s| == size
  {
    seq(size, c requires 0 <= c < size => Symbol(indices, shards, i, c))
  }

  function Size(shards: seq<Shard>): nat { if shards == [] then 0 else |shards[0]| }

  function Parity(p: nat, data: seq<Shard>): (shards: seq<Shard>)
    ensures |shards| == p && Uniform(shards, Size(data))
  {
    var shards := seq(p, r requires 0 <= r < p => ShardAt(UpTo(|data|), data, Size(data), |data| + r));
    assert forall r :: 0 <= r < p ==> shards[r] == ShardAt(UpTo(|data|), data, Size(data), |data| + r);
    shards
  }

  function Available(shards: seq<Option<Shard>>, from: nat): (indices: seq<nat>)
    requires from <= |shards|
    ensures |indices| == CountPresent(shards[from..])
    ensures forall j :: 0 <= j < |indices| ==> from <= indices[j] < |shards| && Present(shards[indices[j]])
    ensures forall i, j :: 0 <= i < j < |indices| ==> indices[i] < indices[j]
    decreases |shards| - from
  {
    if from == |shards| then []
    else
      assert shards[from..][1..] == shards[from + 1..];
      (if Present(shards[from]) then [from] else []) + Available(shards, from + 1)
  }

  function Chosen(shards: seq<Option<Shard>>, indices: seq<nat>): (s: seq<Shard>)
    requires forall j :: 0 <= j < |indices| ==> indices[j] < |shards| && Present(shards[indices[j]])
    ensures |s| == |indices|
  {
    seq(|indices|, j requires 0 <= j < |indices| => assert Present(shards[indices[j]]); shards[indices[j]].value)
  }

  function Rebuild(k: nat, p: nat, shards: seq<Option<Shard>>): Option<seq<Shard>> {
    var all := Available(shards, 0);
    if |shards| != k + p || k == 0 || |all| < k then None
    else
      var values := Chosen(shards, all);
      if !Uniform(values, Size(values)) then None
      else
        Some(seq(|shards|, i requires 0 <= i < |shards| =>
          if Present(shards[i]) then shards[i].value else ShardAt(all[..k], values[..k], Size(values), i)))
  }

  const RS: Library := Library(Legal, (k, p, size) => Legal(k, p), Parity, Rebuild)

  // The contract

  lemma PointsDistinct(indices: seq<nat>)
    requires forall i, j :: 0 <= i < j < |indices| ==> indices[i] < indices[j]
    requires forall i :: 0 <= i < |indices| ==> indices[i] < 256
    ensures Distinct(Points(indices))
  {
    hide FromByte, ToByte;
    forall i, j | 0 <= i < j < |indices| ensures Points(indices)[i] != Points(indices)[j] {
      ToFromByte(indices[i]);
      ToFromByte(indices[j]);
    }
  }

  /** Every symbol of a word, data and parity alike, lies on the polynomial through its data shards. */
  lemma WordSymbol(k: nat, word: seq<Shard>, i: nat, c: nat)
    requires IsWord(RS, k, word) && |word| <= 256 && i < |word| && c < |word[0]|
    ensures word[i][c] == Symbol(UpTo(k), word[..k], i, c)
  {
    hide FromByte, ToByte, Interpolate;
    var data := word[..k];
    if i < k {
      PointsDistinct(UpTo(k));
      GFIsField();
      hide IsField, GF;
      InterpolateHits(GF, Points(UpTo(k)), Column(data, c), i);
      assert Points(UpTo(k))[i] == Point(i);
      assert Column(data, c)[i] == FromByte(word[i][c]);
      ToFromByte(word[i][c]);
    } else {
      assert word[i] == word[k..][i - k] == Parity(|word| - k, data)[i - k];
      assert word[i] == ShardAt(UpTo(k), data, Size(data), i);
    }
  }

  /** k shards of a word, at any increasing indices, lie on the same polynomial as its data shards. */
  lemma SameSymbol(k: nat, word: seq<Shard>, indices: seq<nat>, values: seq<Shard>, i: nat, c: nat)
    requires IsWord(RS, k, word) && |word| <= 256 && i < |word| && c < |word[0]|
    requires |indices| == |values| == k
    requires forall a, b :: 0 <= a < b < k ==> indices[a] < indices[b]
    requires forall j :: 0 <= j < k ==> indices[j] < |word| && values[j] == word[indices[j]]
    ensures Symbol(indices, values, i, c) == word[i][c]
  {
    hide FromByte, ToByte, Interpolate, Column;
    var data := word[..k];
    var xs, ys, zs, vs := Points(UpTo(k)), Column(data, c), Points(indices), Column(values, c);
    forall j | 0 <= j < k ensures vs[j] == Interpolate(GF, xs, ys, zs[j]) {
      ColumnAt(values, j, c);
      WordSymbol(k, word, indices[j], c);
      FromToByte(Interpolate(GF, xs, ys, zs[j]));
    }
    PointsDistinct(UpTo(k));
    PointsDistinct(indices);
    GFIsField();
    hide IsField, GF;
    InterpolateAnyPoints(GF, xs, ys, zs, vs, Point(i));
    WordSymbol(k, word, i, c);
  }

  lemma ColumnAt(shards: seq<Shard>, j: nat, c: nat)
    requires j < |shards| && c < |shards[j]|
    ensures Column(shards, c)[j] == FromByte(shards[j][c])
  {}

  lemma RebuildFinds(k: nat, p: nat, shards: seq<Option<Shard>>, word: seq<Shard>)
    requires Legal(k, p) && |word| == k + p && IsWord(RS, k, word)
    requires Erased(shards, word) && CountPresent(shards) >= k
    ensures Rebuild(k, p, shards) == Some(word)
  {
    hide Symbol, IsWord;
    WordSizes(k, word);
    assert shards[0..] == shards;
    var all := Available(shards, 0);
    var values := Chosen(shards, all);
    forall j | 0 <= j < |all| ensures values[j] == word[all[j]] {}
    assert Uniform(values, Size(values));
    var full := Rebuild(k, p, shards).value;
    forall i | 0 <= i < k + p ensures full[i] == word[i] {
      if !Present(shards[i]) {
        forall c | 0 <= c < |word[0]| ensures full[i][c] == word[i][c] {
          SameSymbol(k, word, all[..k], values[..k], i, c);
        }
        assert |full[i]| == |word[i]|;
      }
    }
    assert full == word;
  }

  lemma WordSizes(k: nat, word: seq<Shard>)
    requires IsWord(RS, k, word)
    ensures k >= 1 && |word| >= k && Uniform(word, |word[0]|)
  {}

  lemma RSMeetsContract()
    ensures Contract(RS)
  {
    assert ParityShape(RS) by {
      forall k: nat, p: nat, size: nat, data: seq<Shard> {:trigger RS.encodes(k, p, size), RS.parity(p, data)} |
        RS.encodes(k, p, size) && |data| == k && Uniform(data, size)
        ensures |RS.parity(p, data)| == p && Uniform(RS.parity(p, data), size)
      {
        assert Size(data) == size;
      }
    }
    assert RebuildKeeps(RS);
    assert RebuildRecovers(RS) by {
      hide Rebuild, IsWord;
      forall k: nat, p: nat, shards, word |
        Legal(k, p) && |word| == k + p && IsWord(RS, k, word) && Erased(shards, word) && CountPresent(shards) >= k
        ensures RS.rebuild(k, p, shards) == Some(word)
      {
        RebuildFinds(k, p, shards, word);
      }
    }
  }
}
