/** Cluster chains in a file allocation table (Microsoft FAT Specification, section 4), as
    servers/fs/fs.cpp follows and extends them. */
module FatChains {

  /** Values from here on end a chain. */
  const EOC_MIN: nat := 0x0fff_fff8

  const EOC: nat := 0x0fff_ffff

  type Chain = seq<nat>

  /** s starts at its first cluster, follows the table and ends with an end-of-chain mark. */
  ghost predicate IsChain(fat: seq<nat>, s: Chain) {
    && s != []
    && (forall i :: 0 <= i < |s| ==> 2 <= s[i] < |fat|)
    && (forall i :: 0 <= i < |s| - 1 ==> fat[s[i]] == s[i + 1])
    && fat[s[|s| - 1]] >= EOC_MIN
  }

  /** The free clusters from c on, in increasing order. */
  ghost function Frees(fat: seq<nat>, c: nat): seq<nat>
    decreases |fat| - c
  {
    if c >= |fat| then []
    else if fat[c] == 0 then [c] + Frees(fat, c + 1)
    else Frees(fat, c + 1)
  }

  ghost predicate Increasing(s: seq<nat>) {
    forall i, j :: 0 <= i < j < |s| ==> s[i] < s[j]
  }

  lemma {:induction false} FreesAre(fat: seq<nat>, c: nat)
    ensures Increasing(Frees(fat, c))
    ensures forall x :: x in Frees(fat, c) <==> c <= x < |fat| && fat[x] == 0
    decreases |fat| - c
  {
    if c < |fat| {
      FreesAre(fat, c + 1);
      var rest := Frees(fat, c + 1);
      forall j | 0 <= j < |rest|
        ensures c < rest[j]
      {
        assert rest[j] in rest;
      }
    }
  }

  /** Only the entries from c on matter to the free list from c on. */
  lemma {:induction false} FreesSame(fat: seq<nat>, fat': seq<nat>, c: nat)
    requires |fat'| == |fat|
    requires forall x :: c <= x < |fat| ==> (fat[x] == 0 <==> fat'[x] == 0)
    ensures Frees(fat', c) == Frees(fat, c)
    decreases |fat| - c
  {
    if c < |fat| {
      FreesSame(fat, fat', c + 1);
    }
  }

  /** Two tables whose free clusters differ by a prefix of the free list. */
  lemma {:induction false} FreesTaken(fat: seq<nat>, fat': seq<nat>, c: nat, n: nat)
    requires |fat'| == |fat| && n <= |Frees(fat, c)|
    requires forall x :: c <= x < |fat| ==> (fat'[x] == 0 <==> fat[x] == 0 && x !in Frees(fat, c)[..n])
    ensures Frees(fat', c) == Frees(fat, c)[n..]
    decreases |fat| - c
  {
    if c < |fat| {
      FreesAre(fat, c + 1);
      if fat[c] == 0 && n > 0 {
        assert Frees(fat, c)[..n] == [c] + Frees(fat, c + 1)[..n - 1];
        FreesTaken(fat, fat', c + 1, n - 1);
      } else if n == 0 {
        FreesSame(fat, fat', c);
      } else {
        FreesTaken(fat, fat', c + 1, n);
      }
    }
  }

  /** A chain never meets itself: acyclicity. */
  lemma {:induction false} ChainDistinct(fat: seq<nat>, s: Chain, i: nat, j: nat)
    requires IsChain(fat, s) && |fat| <= EOC_MIN && i < j < |s|
    ensures s[i] != s[j]
    decreases |s| - j
  {
    assert fat[s[i]] == s[i + 1];
    if j < |s| - 1 {
      ChainDistinct(fat, s, i + 1, j + 1);
    }
  }

  lemma InUse(fat: seq<nat>, s: Chain, x: nat)
    requires IsChain(fat, s) && x in s
    ensures fat[x] != 0
  {
    var i :| 0 <= i < |s| && s[i] == x;
    assert i < |s| - 1 ==> fat[s[i]] == s[i + 1];
  }

  /** The first cluster decides the whole chain. */
  lemma {:induction false} ChainUnique(fat: seq<nat>, s: Chain, t: Chain)
    requires IsChain(fat, s) && IsChain(fat, t) && |fat| <= EOC_MIN && s[0] == t[0]
    ensures s == t
    decreases |s|
  {
    assert |s| > 1 ==> fat[s[0]] == s[1];
    assert |t| > 1 ==> fat[t[0]] == t[1];
    if |s| > 1 {
      assert IsChain(fat, s[1..]) && IsChain(fat, t[1..]);
      ChainUnique(fat, s[1..], t[1..]);
      assert s == [s[0]] + s[1..] && t == [t[0]] + t[1..];
    }
  }

  /** How a table looks once the clusters of news hang behind the cluster last. */
  ghost predicate Extended(fat: seq<nat>, fat': seq<nat>, last: nat, news: seq<nat>) {
    && |fat'| == |fat| && last < |fat|
    && (forall x :: 0 <= x < |fat| && x != last && x !in news ==> fat'[x] == fat[x])
    && (forall i :: 0 <= i < |news| ==> news[i] < |fat|)
    && (forall i :: 0 <= i < |news| - 1 ==> fat'[news[i]] == news[i + 1])
    && (if news == [] then fat'[last] == EOC else fat'[last] == news[0] && fat'[news[|news| - 1]] == EOC)
  }

  /** The chain grows by the new clusters. */
  lemma ExtendChain(fat: seq<nat>, fat': seq<nat>, s: Chain, news: seq<nat>)
    requires IsChain(fat, s) && |fat| <= EOC_MIN && Extended(fat, fat', s[|s| - 1], news)
    requires forall x :: x in news ==> 2 <= x && fat[x] == 0
    ensures IsChain(fat', s + news)
  {
    forall i | 0 <= i < |s| - 1
      ensures s[i] != s[|s| - 1] && s[i] !in news
    {
      ChainDistinct(fat, s, i, |s| - 1);
      assert fat[s[i]] == s[i + 1];
    }
    var t := s + news;
    forall i | 0 <= i < |t|
      ensures 2 <= t[i] < |fat|
    {
      if i >= |s| {
        assert t[i] == news[i - |s|] && news[i - |s|] in news;
      }
    }
    assert news != [] ==> t[|t| - 1] == news[|news| - 1];
    assert news == [] ==> t == s;
    forall i | 0 <= i < |t| - 1
      ensures fat'[t[i]] == t[i + 1]
    {
      if i >= |s| {
        assert t[i] == news[i - |s|];
      }
    }
  }

  /** All chains of a volume: each is a chain, and no cluster is in two of them. */
  ghost predicate Forest(fat: seq<nat>, chains: seq<Chain>) {
    && (forall k :: 0 <= k < |chains| ==> IsChain(fat, chains[k]))
    && (forall j, k, x :: 0 <= j < k < |chains| && x in chains[j] ==> x !in chains[k])
  }

  ghost predicate Used(chains: seq<Chain>, x: nat) {
    exists k :: 0 <= k < |chains| && x in chains[k]
  }

  /** A cluster is in use exactly when it is in some chain: none is lost. */
  ghost predicate Covered(fat: seq<nat>, chains: seq<Chain>) {
    forall x :: 2 <= x < |fat| ==> (fat[x] != 0 <==> Used(chains, x))
  }

  /** From table fat to fat' the chain s became s' by taking the lowest free clusters, in increasing
      order; no other entry changed, and exactly those clusters are no longer free. From s == [] this
      is a new chain. */
  ghost predicate Grown(fat: seq<nat>, s: Chain, fat': seq<nat>, s': Chain) {
    var n := |s'| - |s|;
    && |fat'| == |fat| && IsChain(fat', s')
    && 0 <= n <= |Frees(fat, 2)| && s' == s + Frees(fat, 2)[..n]
    && Frees(fat', 2) == Frees(fat, 2)[n..]
    && (forall x :: 0 <= x < |fat| && x !in s' ==> fat'[x] == fat[x])
  }

  /** The clusters a chain grew by were free, and come in increasing order. */
  lemma GrownNew(fat: seq<nat>, s: Chain, fat': seq<nat>, s': Chain)
    requires Grown(fat, s, fat', s')
    ensures |s| <= |s'| && s'[..|s|] == s && Increasing(s'[|s|..])
    ensures forall x :: x in s' && x !in s ==> 2 <= x < |fat| && fat[x] == 0
    ensures forall x :: x in s'[|s|..] ==> 2 <= x < |fat| && fat[x] == 0
    ensures |Frees(fat', 2)| == |Frees(fat, 2)| - (|s'| - |s|)
  {
    hide IsChain, Frees;
    FreesAre(fat, 2);
    var frees := Frees(fat, 2);
    var n := |s'| - |s|;
    assert s'[|s|..] == frees[..n];
    forall x | x in frees[..n]
      ensures x in frees
    {
    }
  }

  lemma ExtendGrown(fat: seq<nat>, fat': seq<nat>, s: Chain, news: seq<nat>)
    requires IsChain(fat, s) && |fat| <= EOC_MIN && Extended(fat, fat', s[|s| - 1], news)
    requires |news| <= |Frees(fat, 2)| && news == Frees(fat, 2)[..|news|]
    ensures Grown(fat, s, fat', s + news)
  {
    hide Frees;
    FreesAre(fat, 2);
    forall x | x in news
      ensures 2 <= x < |fat| && fat[x] == 0
    {
      assert x in Frees(fat, 2);
    }
    ExtendChain(fat, fat', s, news);
    var last := s[|s| - 1];
    assert last in s + news;
    forall x | 2 <= x < |fat|
      ensures fat'[x] == 0 <==> fat[x] == 0 && x !in news
    {
      if x == last || x in news {
        InUse(fat', s + news, x);
      }
    }
    FreesTaken(fat, fat', 2, |news|);
  }

  lemma GrownRefl(fat: seq<nat>, s: Chain)
    requires IsChain(fat, s)
    ensures Grown(fat, s, fat, s)
  {
    hide IsChain, Frees;
  }

  lemma GrownTrans(fat: seq<nat>, s: Chain, fat1: seq<nat>, s1: Chain, fat2: seq<nat>, s2: Chain)
    requires Grown(fat, s, fat1, s1) && Grown(fat1, s1, fat2, s2)
    ensures Grown(fat, s, fat2, s2)
  {
    hide IsChain, Frees;
    var frees, n, m := Frees(fat, 2), |s1| - |s|, |s2| - |s1|;
    assert frees[n..][..m] == frees[n..n + m] && frees[..n] + frees[n..n + m] == frees[..n + m];
    assert s2 == s + (frees[..n] + frees[n..n + m]);
    assert frees[n..][m..] == frees[n + m..];
    forall x | 0 <= x < |fat| && x !in s2
      ensures fat2[x] == fat[x]
    {
      assert x !in s1;
    }
  }

  /** A chain that shares no cluster with the one that grew is what it was, and still shares none. */
  lemma OtherChainKept(fat: seq<nat>, s: Chain, fat': seq<nat>, s': Chain, t: Chain)
    requires Grown(fat, s, fat', s') && IsChain(fat, t) && forall x :: x in t ==> x !in s
    ensures IsChain(fat', t) && forall x :: x in t ==> x !in s'
  {
    hide Grown, Frees;
    GrownNew(fat, s, fat', s');
    forall x | x in t
      ensures x !in s'
    {
      InUse(fat, t, x);
    }
    GrownElsewhere(fat, s, fat', s');
    assert forall i :: 0 <= i < |t| ==> t[i] in t;
  }

  lemma GrownElsewhere(fat: seq<nat>, s: Chain, fat': seq<nat>, s': Chain)
    requires Grown(fat, s, fat', s')
    ensures |fat'| == |fat| && IsChain(fat', s') && |s| <= |s'| && forall x :: 0 <= x < |fat| && x !in s' ==> fat'[x] == fat[x]
  {
    hide IsChain, Frees;
  }

  /** The chains of the volume after one of them grew, or, from s == [], a new one was made. */
  ghost function Regrown(chains: seq<Chain>, k: nat, s': Chain): seq<Chain> {
    if k < |chains| then chains[k := s'] else chains + [s']
  }

  /** Growing a chain keeps all chains acyclic, terminated and pairwise disjoint, and loses no
      cluster. */
  lemma ForestGrown(fat: seq<nat>, fat': seq<nat>, chains: seq<Chain>, k: nat, s: Chain, s': Chain)
    requires Forest(fat, chains) && k <= |chains| && s == (if k < |chains| then chains[k] else [])
    requires Grown(fat, s, fat', s')
    ensures Forest(fat', Regrown(chains, k, s'))
    ensures Covered(fat, chains) ==> Covered(fat', Regrown(chains, k, s'))
  {
    hide IsChain, Used, Grown;
    GrownElsewhere(fat, s, fat', s');
    forall j | 0 <= j < |chains| && j != k
      ensures IsChain(fat', chains[j]) && forall x :: x in chains[j] ==> x !in s'
    {
      OtherChainKept(fat, s, fat', s', chains[j]);
    }
    if Covered(fat, chains) {
      GrownNew(fat, s, fat', s');
      forall x | 2 <= x < |fat|
        ensures fat'[x] != 0 <==> Used(Regrown(chains, k, s'), x)
      {
        UsedRegrown(chains, k, s, s', x);
        if x in s' {
          InUse(fat', s', x);
        }
      }
    }
  }

  lemma UsedRegrown(chains: seq<Chain>, k: nat, s: Chain, s': Chain, x: nat)
    requires k <= |chains| && s == (if k < |chains| then chains[k] else []) && |s| <= |s'| && s'[..|s|] == s
    ensures Used(Regrown(chains, k, s'), x) <==> Used(chains, x) || x in s'
  {
    var chains' := Regrown(chains, k, s');
    if Used(chains, x) {
      var j :| 0 <= j < |chains| && x in chains[j];
      assert j == k ==> x in s'[..|s|];
      assert x in chains'[j];
    }
    if x in s' {
      assert x in chains'[k];
    }
    if Used(chains', x) {
      var j :| 0 <= j < |chains'| && x in chains'[j];
      assert j == k || x in chains[j];
    }
  }
}
