/** Circular buffers as the CAN driver and the RAM log use them: the run of entries from one
    index up to another, wrapping at the end of the array. One entry always stays unused. */
module Rings {

  /** The increment and the wrap test that the drivers write out at each index. */
  function Next(i: nat, n: nat): (r: nat)
    requires i < n
    ensures r < n
  {
    if i + 1 >= n then 0 else i + 1
  }

  /** How many entries lie from index i up to index j. */
  function Count(i: nat, j: nat, n: nat): (r: nat)
    requires i < n && j < n
    ensures r < n
  {
    if i <= j then j - i else j + n - i
  }

  /** The entries from index i up to index j. */
  function Run<T>(s: seq<T>, i: nat, j: nat): (r: seq<T>)
    requires i < |s| && j < |s|
    ensures |r| == Count(i, j, |s|)
  {
    if i <= j then s[i..j] else s[i..] + s[..j]
  }

  /** Storing at the end index and moving it on appends, as long as it does not catch up with
      the start; a run that ends earlier keeps its entries. */
  lemma Append<T>(s: seq<T>, i: nat, j: nat, x: T)
    requires i < |s| && j < |s| && Next(j, |s|) != i
    ensures Run(s[j := x], i, Next(j, |s|)) == Run(s, i, j) + [x]
    ensures forall k | 0 <= k < |s| && Count(i, k, |s|) <= Count(i, j, |s|) :: Run(s[j := x], i, k) == Run(s, i, k)
  {
  }

  /** Moving the end index on without storing takes in the entry that is there. */
  lemma TakeIn<T>(s: seq<T>, i: nat, j: nat)
    requires i < |s| && j < |s| && Next(j, |s|) != i
    ensures Run(s, i, Next(j, |s|)) == Run(s, i, j) + [s[j]]
  {
    assert s[j := s[j]] == s;
    Append(s, i, j, s[j]);
  }

  /** Moving the start index on removes the first entry. */
  lemma Remove<T>(s: seq<T>, i: nat, j: nat)
    requires i < |s| && j < |s| && i != j
    ensures Run(s, i, j) == [s[i]] + Run(s, Next(i, |s|), j)
  {
  }

  /** A shorter run is a prefix of a longer one. */
  lemma Prefix<T>(s: seq<T>, i: nat, k: nat, j: nat)
    requires i < |s| && j < |s| && k < |s| && Count(i, k, |s|) <= Count(i, j, |s|)
    ensures Run(s, i, j) == Run(s, i, k) + Run(s, k, j)
  {
  }

  /** The next end index meets the start exactly when all entries but one are used. */
  lemma FullMeans(i: nat, j: nat, n: nat)
    requires i < n && j < n
    ensures Next(j, n) == i <==> Count(i, j, n) == n - 1
  {
  }

  /** Storing at the end index j and setting the end to k: the run has one more entry exactly
      when k is the next index; else it is cut short, or goes on behind the new entry. */
  lemma StoreAt<T>(s: seq<T>, i: nat, j: nat, k: nat, x: T)
    requires i < |s| && j < |s| && k < |s| && k != i
    ensures |Run(s[j := x], i, k)| == |Run(s, i, j)| + 1 <==> k == Next(j, |s|)
    ensures k == Next(j, |s|) ==> Run(s[j := x], i, k) == Run(s, i, j) + [x]
    ensures Count(i, k, |s|) <= Count(i, j, |s|) ==> Run(s[j := x], i, k) <= Run(s, i, j)
    ensures Count(i, k, |s|) > Count(i, j, |s|) ==> Run(s, i, j) + [x] <= Run(s[j := x], i, k)
  {
    var s' := s[j := x];
    if Count(i, k, |s|) <= Count(i, j, |s|) {
      Prefix(s, i, k, j);
      hide Run;
      assert Run(s', i, k) == Run(s, i, k);
    } else {
      Append(s, i, j, x);
      Prefix(s', i, Next(j, |s|), k);
    }
  }

  lemma RunEmpty<T>(s: seq<T>, i: nat)
    requires i < |s|
    ensures Run(s, i, i) == []
  {
  }
}
