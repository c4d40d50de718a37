/** The size of the data segment: when a loan can run out of memory. */
module SampleCapacity {
  import opened Common
  import opened SampleLifecycle
  import opened SampleReferences
  import opened SampleDelivery
  import opened SampleTheorems

  function ChunkSet(es: seq<Entry>): (r: set<nat>)
    ensures |r| <= |es|
  {
    if |es| == 0 then {} else {es[0].chunk} + ChunkSet(es[1..])
  }

  lemma {:induction false} CountedInSet(es: seq<Entry>, c: nat)
    ensures Count(es, c) > 0 <==> c in ChunkSet(es)
  {
    if |es| == 0 {
    } else {
      CountedInSet(es[1..], c);
    }
  }

  function ConnectionChunks(x: Option<Connection>): (r: set<nat>)
    ensures |r| <= Size(x)
  {
    match x
    case None => {}
    case Some(k) => ChunkSet(k.buffered) + ChunkSet(k.borrowed) + ChunkSet(k.returned)
  }

  function AllConnectionChunks(cs: seq<Option<Connection>>): set<nat> {
    if |cs| == 0 then {} else ConnectionChunks(cs[0]) + AllConnectionChunks(cs[1..])
  }

  lemma {:induction false} ConnectedInSet(cs: seq<Option<Connection>>, c: nat)
    ensures AllConnectionRefs(cs, c) > 0 <==> c in AllConnectionChunks(cs)
  {
    if |cs| == 0 {
    } else {
      ConnectedInSet(cs[1..], c);
      if cs[0].Some? {
        CountedInSet(cs[0].value.buffered, c);
        CountedInSet(cs[0].value.borrowed, c);
        CountedInSet(cs[0].value.returned, c);
      }
    }
  }

  lemma {:induction false} ConnectionsSize(cs: seq<Option<Connection>>, most: nat)
    requires forall i :: 0 <= i < |cs| ==> Size(cs[i]) <= most
    ensures |AllConnectionChunks(cs)| <= |cs| * most
  {
    if |cs| == 0 {
    } else {
      ConnectionsSize(cs[1..], most);
      UnionSize(ConnectionChunks(cs[0]), AllConnectionChunks(cs[1..]));
      SumTimes(|cs| - 1, 1, most);
    }
  }

  function Distinct(m: multiset<nat>): set<nat> {
    set x | x in m
  }

  lemma {:induction false} DistinctSize(m: multiset<nat>)
    ensures |Distinct(m)| <= |m|
    decreases |m|
  {
    if x :| x in m {
      DistinctSize(m - multiset{x});
      assert Distinct(m) <= Distinct(m - multiset{x}) + {x};
      SubsetSize(Distinct(m), Distinct(m - multiset{x}) + {x});
    } else {
      assert Distinct(m) == {};
    }
  }

  lemma SubsetSize(a: set<nat>, b: set<nat>)
    requires a <= b
    ensures |a| <= |b|
  {
    assert b == a + (b - a);
  }

  /** Every allocated chunk is referenced from somewhere. */
  ghost function Referenced(s: State): set<nat> {
    Distinct(s.loans) + ChunkSet(s.history) + AllConnectionChunks(s.connections)
    + Distinct(s.held) + ChunkSet(s.orphaned)
  }

  lemma AllocatedIsReferenced(cfg: Config, s: State)
    requires Inv(cfg, s)
    ensures Below(NumberOfSamples(cfg)) - s.free <= Referenced(s)
  {
    forall c | c in Below(NumberOfSamples(cfg)) - s.free ensures c in Referenced(s) {
      assert Refs(s, c) > 0;
      CountedInSet(s.history, c);
      CountedInSet(s.orphaned, c);
      ConnectedInSet(s.connections, c);
    }
  }

  /** How many chunks can be in use at once, given the loans and the orphans. */
  function Demand(cfg: Config, loans: int, orphans: nat): int {
    cfg.maxSubscribers * (cfg.bufferSize + cfg.maxBorrowed) + cfg.historySize + loans + orphans
  }

  lemma FourUnionsSize(a: set<nat>, b: set<nat>, c: set<nat>, d: set<nat>)
    ensures |a + b + c + d| <= |a| + |b| + |c| + |d|
  {
    UnionSize(a, b);
    UnionSize(a + b, c);
    UnionSize(a + b + c, d);
  }

  lemma AllConnectionsSize(cfg: Config, s: State)
    requires |s.connections| == cfg.maxSubscribers && Drained(cfg, s)
    ensures |AllConnectionChunks(s.connections)| <= cfg.maxSubscribers * (cfg.bufferSize + cfg.maxBorrowed)
  {
    ConnectionsSize(s.connections, cfg.bufferSize + cfg.maxBorrowed);
  }

  lemma ReferencedSize(cfg: Config, s: State)
    requires |s.connections| == cfg.maxSubscribers && Drained(cfg, s) && s.held == multiset{}
    requires |s.history| <= cfg.historySize
    ensures |Referenced(s)| <= Demand(cfg, |s.loans|, |ChunkSet(s.orphaned)|)
  {
    var a, b, c, d := Distinct(s.loans), ChunkSet(s.history), AllConnectionChunks(s.connections), ChunkSet(s.orphaned);
    DistinctSize(s.loans);
    AllConnectionsSize(cfg, s);
    FourUnionsSize(a, b, c, d);
    assert Referenced(s) == a + b + c + d by {
      assert Distinct(s.held) == {};
    }
  }

  lemma HistorySize(cfg: Config, s: State)
    requires HistoryInv(cfg, s)
    ensures |s.history| <= cfg.historySize
  {
  }

  lemma AllocatedSize(cfg: Config, s: State)
    requires Inv(cfg, s) && Drained(cfg, s) && s.held == multiset{}
    ensures |Below(NumberOfSamples(cfg)) - s.free| <= Demand(cfg, s.loanCounter, |ChunkSet(s.orphaned)|)
  {
    AllocatedIsReferenced(cfg, s);
    HistorySize(cfg, s);
    ReferencedSize(cfg, s);
    SubsetSize(Below(NumberOfSamples(cfg)) - s.free, Referenced(s));
  }

  lemma DemandIsMet(cfg: Config, free: set<nat>, loans: int, orphans: nat)
    requires |Below(NumberOfSamples(cfg)) - free| <= Demand(cfg, loans, orphans)
    requires loans < cfg.maxLoans && orphans <= 1
    ensures free != {}
  {
    assert Below(NumberOfSamples(cfg)) - {} == Below(NumberOfSamples(cfg));
  }

  /** The data segment is large enough: once the returned samples are reclaimed, a publisher below
      its loan limit finds a free chunk, unless at least two chunks have been orphaned. */
  lemma FreeChunkExists(cfg: Config, s: State)
    requires Inv(cfg, s) && Drained(cfg, s)
    requires s.loanCounter < cfg.maxLoans && s.held == multiset{}
    requires |ChunkSet(s.orphaned)| <= 1
    ensures s.free != {}
  {
    AllocatedSize(cfg, s);
    DemandIsMet(cfg, s.free, s.loanCounter, |ChunkSet(s.orphaned)|);
  }
}
