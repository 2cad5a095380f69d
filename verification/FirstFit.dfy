/** Where first fit puts a sequence of requests, and what room it leaves. */
module FirstFit {
  import opened HeapTable

  // ---------------------------------------------------------------- one block after the other

  /** A request for one block was answered with block b. */
  ghost predicate FirstOne(t: seq<Entry>, u: seq<Entry>, b: nat) {
    StartBlock(t, 1) == b && u == MarkTaken(t, b, 1)
  }

  /** A request for n blocks was answered with the run at b. */
  ghost predicate FirstRun(t: seq<Entry>, u: seq<Entry>, b: nat, n: nat) {
    StartBlock(t, n) == b && u == MarkTaken(t, b, n)
  }

  /** Requests for one block each were answered with these blocks. */
  ghost predicate FirstOnes(t: seq<Entry>, u: seq<Entry>, blocks: seq<nat>)
    decreases |blocks|
  {
    if blocks == [] then u == t
    else StartBlock(t, 1) == blocks[0] && FirstOnes(MarkTaken(t, blocks[0], 1), u, blocks[1..])
  }

  lemma FirstNone(t: seq<Entry>)
    ensures FirstOnes(t, t, [])
  {
  }

  lemma FirstOnesOne(t: seq<Entry>, u: seq<Entry>, b: nat)
    ensures FirstOnes(t, u, [b]) <==> FirstOne(t, u, b)
  {
    assert [b][1..] == [];
  }

  lemma {:induction false} FirstOnesBoth(t: seq<Entry>, v: seq<Entry>, u: seq<Entry>, a: seq<nat>, b: seq<nat>)
    requires FirstOnes(t, v, a) && FirstOnes(v, u, b)
    ensures FirstOnes(t, u, a + b)
    decreases |a|
  {
    if a == [] {
      assert a + b == b;
    } else {
      FirstOnesBoth(MarkTaken(t, a[0], 1), v, u, a[1..], b);
      assert (a + b)[1..] == a[1..] + b;
    }
  }

  lemma FirstOnesMore(t: seq<Entry>, v: seq<Entry>, blocks: seq<nat>, u: seq<Entry>, b: nat)
    requires FirstOnes(t, v, blocks) && FirstOne(v, u, b)
    ensures FirstOnes(t, u, blocks + [b])
  {
    FirstOnesOne(v, u, b);
    FirstOnesBoth(t, v, u, blocks, [b]);
  }

  // ---------------------------------------------------------------- room

  /** First fit eats a long free run from its front at worst. */
  lemma RunRemains(t: seq<Entry>, n: nat, more: nat)
    requires HasRun(t, n + more) && 0 < n
    ensures var b := StartBlock(t, n);
      0 <= b && HasRun(t, n) && FreeRun(t, b, n) && HasRun(MarkTaken(t, b, n), more)
  {
    var s :| FreeRun(t, s, n + more);
    assert FreeRun(t, s, n);
    ScanFitsIff(t, n);
    var b := StartBlock(t, n);
    assert FreeRun(MarkTaken(t, b, n), s + n, more);
  }

  lemma {:induction false} OnesRemain(t: seq<Entry>, u: seq<Entry>, blocks: seq<nat>, more: nat)
    requires FirstOnes(t, u, blocks) && HasRun(t, |blocks| + more)
    ensures HasRun(u, more)
    decreases |blocks|
  {
    if blocks != [] {
      RunRemains(t, 1, |blocks| - 1 + more);
      OnesRemain(MarkTaken(t, blocks[0], 1), u, blocks[1..], more);
    }
  }

  lemma ShorterRun(t: seq<Entry>, n: nat, more: nat)
    requires HasRun(t, n + more)
    ensures HasRun(t, n)
  {
    var s :| FreeRun(t, s, n + more);
    assert FreeRun(t, s, n);
  }

  /** A free only makes room. */
  lemma FreeKeepsRuns(t: seq<Entry>, b: nat, n: nat)
    requires HasRun(t, n)
    ensures HasRun(MarkFree(t, b), n)
  {
    var s :| FreeRun(t, s, n);
    MarkFreeOnly(t, b);
    assert FreeRun(MarkFree(t, b), s, n);
  }

  lemma {:induction false} MarkFreeOnly(t: seq<Entry>, b: nat)
    ensures forall i | 0 <= i < |t| :: MarkFree(t, b)[i] == t[i] || MarkFree(t, b)[i] == FREE
    decreases |t| - b
  {
    if b < |t| && HasNext(t[b]) {
      MarkFreeOnly(t[b := FREE], b + 1);
    }
  }

  // ---------------------------------------------------------------- a table taken from the front

  /** Everything below k is taken, and everything from k up to n is free. */
  ghost predicate Front(t: seq<Entry>, k: nat, n: nat) {
    k <= n <= |t| && (forall i: nat | i < k :: !IsFree(t[i])) && (forall i: nat | k <= i < n :: IsFree(t[i]))
  }

  /** There, a request is answered with the next blocks. */
  lemma FrontTakes(t: seq<Entry>, k: nat, n: nat, x: nat)
    requires Front(t, k, n) && 0 < x && k + x <= n
    ensures StartBlock(t, x) == k && FreeRun(t, k, x) && Front(MarkTaken(t, k, x), k + x, n)
  {
    assert FreeRun(t, k, x);
    ScanFitsIff(t, x);
    assert IsFree(t[StartBlock(t, x)]);
    assert forall s | 0 <= s < k :: !FreeRun(t, s, x) by {
      forall s | 0 <= s < k ensures !FreeRun(t, s, x) { assert !IsFree(t[s]); }
    }
    forall i: nat | k <= i < k + x ensures !IsFree(MarkTaken(t, k, x)[i]) { RunEntryBits(i - k, x); }
  }

  lemma {:induction false} FrontOnes(t: seq<Entry>, u: seq<Entry>, blocks: seq<nat>, k: nat, n: nat)
    requires FirstOnes(t, u, blocks) && Front(t, k, n) && k + |blocks| <= n
    ensures Front(u, k + |blocks|, n) && forall i | 0 <= i < |blocks| :: blocks[i] == k + i
    decreases |blocks|
  {
    if blocks != [] {
      FrontTakes(t, k, n, 1);
      FrontOnes(MarkTaken(t, k, 1), u, blocks[1..], k + 1, n);
      forall i | 0 <= i < |blocks| ensures blocks[i] == k + i {
        assert 0 < i ==> blocks[i] == blocks[1..][i - 1];
      }
    }
  }

  /** Four blocks free at a, then a part that is taken up to k, and free blocks from there to n. */
  ghost predicate Gap(t: seq<Entry>, a: nat, k: nat, n: nat) {
    && a + 4 <= k <= n <= |t| && (forall i: nat | i < a :: !IsFree(t[i]))
    && (forall i: nat | a <= i < a + 4 :: IsFree(t[i]))
    && (forall i: nat | a + 4 <= i < k :: !IsFree(t[i])) && (forall i: nat | k <= i < n :: IsFree(t[i]))
  }

  /** Requests for three blocks and for one close the gap. */
  lemma GapCloses(t: seq<Entry>, u: seq<Entry>, v: seq<Entry>, b: nat, c: nat, a: nat, k: nat, n: nat)
    requires Gap(t, a, k, n) && FirstRun(t, u, b, 3) && FirstRun(u, v, c, 1)
    ensures b == a && c == a + 3 && Front(v, k, n)
  {
    assert Front(t, a, a + 4);
    FrontTakes(t, a, a + 4, 3);
    FrontTakes(u, a + 3, a + 4, 1);
  }
}
