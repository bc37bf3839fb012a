/** Discovery and audit run one after the other, as the recompiler runs them when no
    script interpreter is found. */
module Pipeline {
  import opened Machine
  import opened Isa
  import D = Discovery
  import W = Worklist
  import A = Audit
  import C = DispatchClosure

  ghost predicate AllEntries(seeds: seq<D.Ask>) {
    forall k :: 0 <= k < |seeds| ==> seeds[k].kind.Entry?
  }

  /** A table that is not empty has a scan root: additions that are not scan roots
      come only from scanning one. */
  lemma SomeRoot(c: D.Cartridge, scanner: D.Scanner, seeds: seq<D.Ask>, t: D.Table)
    requires AllEntries(seeds) && t.items != []
    requires D.Closed(c, scanner, seeds, D.Facts(t))
    requires forall s: iset<D.Fact> :: D.Closed(c, scanner, seeds, s) ==> D.Facts(t) <= s
    ensures A.HaveScanRoots(t)
  {
    hide D.Scan, D.Find, D.Facts;
    if !A.HaveScanRoots(t) {
      forall k | 0 <= k < |seeds| ensures !c.Probable(seeds[k].bank, seeds[k].addr) {
        NoEntry(c, scanner, seeds, t, k);
      }
      assert D.Closed(c, scanner, seeds, iset{});
      FirstFact(t);
    }
  }

  lemma NoEntry(c: D.Cartridge, scanner: D.Scanner, seeds: seq<D.Ask>, t: D.Table, k: nat)
    requires D.Closed(c, scanner, seeds, D.Facts(t)) && k < |seeds| && seeds[k].kind.Entry?
    requires !A.HaveScanRoots(t)
    ensures !c.Probable(seeds[k].bank, seeds[k].addr)
  {
    hide D.Scan;
    hide D.Find;
    var f := D.FactOf(c, seeds[k]);
    EntryNeedsRoot(t, f.addr, f.bank);
  }

  lemma EntryNeedsRoot(t: D.Table, addr: u32, bank: u32)
    requires !A.HaveScanRoots(t)
    ensures D.Fact(addr, bank, D.Entry) !in D.Facts(t)
  {
    hide D.Find;
  }

  lemma FirstFact(t: D.Table)
    requires t.items != []
    ensures D.Facts(t) != iset{}
  {
    var f := D.Fact(t.items[0].addr, t.items[0].bank, D.Label);
    assert D.Find(t.items, f.addr, f.bank) == 0;
    assert f in D.Facts(t);
  }

  /** The loop has put into the table the scan of everything the audit will scan. */
  lemma ScannedForAudit(c: D.Cartridge, scanner: D.Scanner, max: nat, asked: seq<D.Ask>, s: A.Subject,
                        scanned: seq<bool>)
    requires W.Working(c, scanner, max, asked, s.t, scanned) && |s.t.items| <= |scanned|
    requires W.AllScanned(s.t, scanned) && !s.t.truncated
    requires s.c == c && s.limit == scanner.limit && A.HaveScanRoots(s.t)
    ensures A.TableScanned(s, scanner)
  {
    hide D.Scan, D.AllSatisfied, D.Good, W.Within, A.HaveScanRoots;
    forall k | 0 <= k < |s.t.items| && A.IsScanned(s.t, k)
      ensures D.AllSatisfied(c, s.t, D.Scan(c, scanner, c.ViewOf(s.t.items[k].bank), s.t.items[k].addr))
    {
      assert scanned[k] && W.ScanDone(c, scanner, s.t, k);
    }
  }

  /** Discovery from seeds, then the audit of its table.  With nothing cut off, the
      table is closed for dispatch when the ROM is flat, and every direct site the
      audit reports as missing leads to something that is not code. */
  method DiscoverAndAudit(c: D.Cartridge, scanner: D.Scanner, seeds: seq<D.Ask>, limit: nat,
                          mapped: (u32, u32) -> bool, tables: (u32, u32, nat) -> bool)
    returns (t: D.Table, sites: seq<A.Site>, missing: nat)
    ensures missing == A.Missing(sites)
    ensures forall site :: site in sites ==> A.Justified(A.Subject(c, t, scanner.limit, mapped, tables), site)
    ensures t.items != [] && !t.truncated && AllEntries(seeds) ==>
              A.TableScanned(A.Subject(c, t, scanner.limit, mapped, tables), scanner)
    ensures t.items != [] && !t.truncated && C.FlatRom(c) && C.FlatSeeds(c, seeds) && scanner.limit > 0 ==>
              C.Finished(c, scanner, seeds, t)
  {
    hide W.Working, D.Closed, D.Scan, A.Justified, A.TableScanned, A.HaveScanRoots, C.FlatRom, D.Facts, W.AllScanned;
    var candidates := new W.Candidates(c, scanner, limit);
    var found, before, scanned := candidates.Discover(seeds, _ => []);
    t := candidates.Contents();
    if found && !t.truncated {
      candidates.WithoutInterpreter(_ => [], seeds, before, t, scanned);
      if AllEntries(seeds) {
        SomeRoot(c, scanner, seeds, t);
        candidates.RootsScanned(_ => [], seeds, before, t, scanned);
        ScannedForAudit(c, scanner, candidates.maxCandidates, seeds + [],
                        A.Subject(c, t, scanner.limit, mapped, tables), scanned);
      }
    }
    var audit := new A.DispatchAudit(A.Subject(c, t, scanner.limit, mapped, tables));
    audit.Build();
    sites, missing := audit.sites, audit.missingDirectCount;
  }
}
