/** The dispatch audit (recompiler/src/dispatch_audit.c): a second scanner, written
    apart from discovery, that lists every call and jump site and checks the direct
    ones against the discovery table. */
module Audit {
  import opened Machine
  import opened Isa
  import D = Discovery
  import C = DispatchClosure

  const MAX_SITES := 131072
  const MAX_SEEN := 131072

  /** What the audit is given: the ROM, the discovery table, whether an address is
      mapped through a bank, and whether the table matchers recognise the instruction
      `left` from the end of the scan of a root. */
  datatype Subject = Subject(c: D.Cartridge, t: D.Table, limit: nat, mapped: (u32, u32) -> bool,
                             tables: (u32, u32, nat) -> bool)

  // ---------------------------------------------------------------- sites

  datatype Target = NoTarget | Target(addr: u24, bank: u32, external: bool, inDiscovery: bool)
  datatype SiteKind = Direct | Computed | JumpTable
  datatype Site = Site(kind: SiteKind, addr: u24, bank: u32, target: Target)
  {
    predicate IsExternal() { kind.Direct? && target.Target? && target.external }
    predicate IsMissing() { kind.Direct? && target.Target? && !target.external && !target.inDiscovery }
  }

  /** ng_address_region is neither of the two program ROM regions. */
  predicate IsExternal(addr: u32) {
    var a := Wrap24(addr);
    !(a <= 0xF_FFFF) && !(0x20_0000 <= a <= 0x2F_FFFF)
  }

  /** instr_is_direct_target, written by mnemonic and source mode */
  predicate IsDirectTarget(op: Op) {
    match op
    case Bsr(_) => true
    case Jsr(src) => src.Abs? || src.PcDisp?
    case Jmp(src) => src.Abs? || src.PcDisp?
    case _ => false
  }

  predicate IsDispatch(op: Op) { op.Jsr? || op.Bsr? || op.Jmp? }

  /** instr_stops_scan */
  predicate StopsScan(op: Op) { op.Bra? || op.Jmp? || op.Rte? || op.Rtr? || op.Rts? }

  function TargetOf(op: Op): u32
    requires IsDirectTarget(op)
  {
    match op case Bsr(target) => target case Jsr(src) => src.addr case Jmp(src) => src.addr
  }

  /** audit_record_direct */
  function DirectTarget(s: Subject, view: u32, target: u32): Target {
    var bank, external := s.c.BankFor(view, target), IsExternal(target);
    Target(Wrap24(target), bank, external,
           !external && s.mapped(view, target) && D.Find(s.t.items, target, bank) < |s.t.items|)
  }

  /** One address seen for the first time: through which bank, and whether a table
      matched there. */
  datatype Visit = Visit(addr: u32, bank: u32, view: u32, table: bool)

  function SiteAt(s: Subject, v: Visit, i: Instr): Option<Site> {
    if v.table then Some(Site(JumpTable, Wrap24(i.addr), v.bank, NoTarget))
    else if IsDirectTarget(i.op) then
      Some(Site(Direct, Wrap24(i.addr), v.bank, DirectTarget(s, v.view, TargetOf(i.op))))
    else if IsDispatch(i.op) then Some(Site(Computed, Wrap24(i.addr), v.bank, NoTarget))
    else None
  }

  /** Whether the visit is of valid code on the audit's scan of some table entry. */
  ghost predicate Genuine(s: Subject, v: Visit) {
    && s.c.IsCode(v.view, v.addr)
    && v.bank == s.c.BankFor(v.view, v.addr)
    && exists k :: 0 <= k < |s.t.items| && IsScanned(s.t, k) && v.view == s.c.ViewOf(s.t.items[k].bank)
                   && OnScan(s.c, v.view, s.t.items[k].addr, s.limit, v.addr)
  }

  /** have_scan_roots && !scan_roots[i] is skipped. */
  predicate HaveScanRoots(t: D.Table) { exists k :: 0 <= k < |t.items| && t.items[k].root }

  predicate IsScanned(t: D.Table, k: nat)
    requires k < |t.items|
  {
    HaveScanRoots(t) ==> t.items[k].root
  }

  /** audit_scan_from reaches an address from pc within `left` instructions. */
  predicate OnScan(c: D.Cartridge, view: u32, pc: u32, left: nat, addr: u32): (r: bool)
    ensures r ==> c.IsCode(view, addr)
    decreases left
  {
    && left > 0 && c.IsCode(view, pc)
    && (addr == pc
        || (!StopsScan(c.view(view)(pc).value.op)
            && OnScan(c, view, Wrap32(pc + c.view(view)(pc).value.len), left - 1, addr)))
  }

  /** The sites an untruncated audit has after some visits. */
  function SitesOf(s: Subject, visits: seq<Visit>): seq<Site> {
    if visits == [] then []
    else
      var v := visits[|visits| - 1];
      var rest := SitesOf(s, visits[..|visits| - 1]);
      match s.c.view(v.view)(v.addr)
      case None => rest
      case Some(i) => if SiteAt(s, v, i).Some? then rest + [SiteAt(s, v, i).value] else rest
  }

  function Missing(sites: seq<Site>): nat {
    if sites == [] then 0 else Missing(sites[..|sites| - 1]) + if sites[|sites| - 1].IsMissing() then 1 else 0
  }

  function External(sites: seq<Site>): nat {
    if sites == [] then 0 else External(sites[..|sites| - 1]) + if sites[|sites| - 1].IsExternal() then 1 else 0
  }

  function OfKind(sites: seq<Site>, kind: SiteKind): nat {
    if sites == [] then 0 else OfKind(sites[..|sites| - 1], kind) + if sites[|sites| - 1].kind == kind then 1 else 0
  }

  lemma CountsGrow(sites: seq<Site>, site: Site)
    ensures Missing(sites + [site]) == Missing(sites) + if site.IsMissing() then 1 else 0
    ensures External(sites + [site]) == External(sites) + if site.IsExternal() then 1 else 0
    ensures forall kind :: OfKind(sites + [site], kind) == OfKind(sites, kind) + if site.kind == kind then 1 else 0
  {
    assert (sites + [site])[..|sites + [site]| - 1] == sites;
  }

  /** A recorded direct site is what its instruction says, seen through some bank. */
  ghost predicate Justified(s: Subject, site: Site) {
    site.kind.Direct? ==>
      exists v: Visit :: Genuine(s, v) && SiteAt(s, v, s.c.view(v.view)(v.addr).value) == Some(site)
  }

  // ---------------------------------------------------------------- the audit

  /** NgDispatchAudit and the seen list of the scan; `visits` is the history the
      seen list stands for. */
  class DispatchAudit {
    const s: Subject
    var sites: seq<Site>
    var seen: seq<(u32, u32)>
    var directCount: nat
    var missingDirectCount: nat
    var externalDirectCount: nat
    var computedCount: nat
    var jumpTableCount: nat
    var truncated: bool
    ghost var visits: seq<Visit>

    constructor (s: Subject)
      ensures this.s == s && Valid() && visits == [] && !truncated
    {
      this.s := s;
      sites, seen, visits, truncated := [], [], [], false;
      directCount, missingDirectCount, externalDirectCount, computedCount, jumpTableCount := 0, 0, 0, 0, 0;
    }

    ghost predicate Valid()
      reads this
    {
      && |sites| <= MAX_SITES && |seen| <= MAX_SEEN
      && missingDirectCount == Missing(sites) && externalDirectCount == External(sites)
      && directCount >= OfKind(sites, Direct) && computedCount >= OfKind(sites, Computed)
      && jumpTableCount >= OfKind(sites, JumpTable)
      && (forall site :: site in sites ==> Justified(s, site))
      && |visits| == |seen|
      && (forall k :: 0 <= k < |seen| ==> seen[k] == (visits[k].addr, visits[k].bank) && Genuine(s, visits[k]))
      && (forall j, k :: 0 <= j < k < |seen| ==> seen[j] != seen[k])
      && (!truncated ==> Exact())
    }

    /** Nothing was dropped: the sites are those of the visits, and so are the counts. */
    ghost predicate Exact()
      reads this
    {
      && sites == SitesOf(s, visits)
      && directCount == OfKind(sites, Direct) && computedCount == OfKind(sites, Computed)
      && jumpTableCount == OfKind(sites, JumpTable)
    }

    method IsSeen(addr: u32, bank: u32) returns (found: bool)
      ensures found <==> (addr, bank) in seen
    {
      for i := 0 to |seen|
        invariant (addr, bank) !in seen[..i]
      {
        if seen[i] == (addr, bank) {
          return true;
        }
      }
      found := false;
    }

    /** audit_append with the record that follows it. */
    method Record(site: Site)
      modifies this`sites, this`truncated, this`directCount, this`missingDirectCount, this`externalDirectCount,
               this`computedCount, this`jumpTableCount
      ensures if |old(sites)| < MAX_SITES then sites == old(sites) + [site] && truncated == old(truncated)
              else sites == old(sites) && truncated
      ensures directCount == old(directCount) + if site.kind.Direct? then 1 else 0
      ensures computedCount == old(computedCount) + if site.kind.Computed? then 1 else 0
      ensures jumpTableCount == old(jumpTableCount) + if site.kind.JumpTable? then 1 else 0
      ensures missingDirectCount == old(missingDirectCount)
                                    + if |old(sites)| < MAX_SITES && site.IsMissing() then 1 else 0
      ensures externalDirectCount == old(externalDirectCount)
                                     + if |old(sites)| < MAX_SITES && site.IsExternal() then 1 else 0
    {
      match site.kind {
        case Direct => directCount := directCount + 1;
        case Computed => computedCount := computedCount + 1;
        case JumpTable => jumpTableCount := jumpTableCount + 1;
      }
      if |sites| >= MAX_SITES {
        truncated := true;
        return;
      }
      sites := sites + [site];
      if site.IsExternal() {
        externalDirectCount := externalDirectCount + 1;
      } else if site.IsMissing() {
        missingDirectCount := missingDirectCount + 1;
      }
    }

    /** The first time an address is reached: note it, and record its site. */
    method VisitNew(v: Visit)
      requires Valid() && Genuine(s, v) && (v.addr, v.bank) !in seen
      modifies this
      ensures Valid() && (old(truncated) ==> truncated)
      ensures seen == (if |old(seen)| < MAX_SEEN then old(seen) + [(v.addr, v.bank)] else old(seen))
      ensures !truncated ==> visits == old(visits) + [v] && (v.addr, v.bank) in seen
    {
      hide Genuine, SiteAt, Missing, External, OfKind;
      if |seen| < MAX_SEEN {
        seen, visits := seen + [(v.addr, v.bank)], visits + [v];
      } else {
        truncated := true;
      }
      var i := ValueOf(v);
      var site := SiteAt(s, v, i);
      ghost var before := sites;
      assert visits != [] ==> (visits[..|visits| - 1] == old(visits) || visits == old(visits));
      if site.Some? {
        CountsGrow(sites, site.value);
        JustifiedBy(s, v, site.value);
        Record(site.value);
        assert forall x :: x in sites ==> x in before || x == site.value;
      }
    }

    function ValueOf(v: Visit): (i: Instr)
      requires Genuine(s, v)
      ensures s.c.view(v.view)(v.addr) == Some(i)
    {
      s.c.view(v.view)(v.addr).value
    }

    /** audit_scan_from, of table entry k */
    method ScanFrom(k: nat)
      requires Valid() && k < |s.t.items| && IsScanned(s.t, k)
      modifies this
      ensures Valid() && (old(truncated) ==> truncated)
      ensures old(seen) <= seen
      ensures !truncated ==> Complete(k)
    {
      hide Valid, Genuine, StopsScan;
      var view, start := s.c.ViewOf(s.t.items[k].bank), s.t.items[k].addr;
      var pc: u32 := start;
      for i := 0 to s.limit
        invariant Valid() && (old(truncated) ==> truncated) && old(seen) <= seen
        invariant forall a: u32 :: OnScan(s.c, view, pc, s.limit - i, a) ==> OnScan(s.c, view, start, s.limit, a)
        invariant !truncated ==> forall a: u32 :: OnScan(s.c, view, start, s.limit, a) ==>
                    OnScan(s.c, view, pc, s.limit - i, a) || (a, s.c.BankFor(view, a)) in seen
      {
        if !s.c.IsCode(view, pc) {
          return;
        }
        var instr := s.c.view(view)(pc).value;
        var bank := s.c.BankFor(view, pc);
        var found := IsSeen(pc, bank);
        assert OnScan(s.c, view, pc, s.limit - i, pc);
        if !found {
          IsGenuine(s, k, Visit(pc, bank, view, s.tables(view, start, s.limit - i)));
          VisitNew(Visit(pc, bank, view, s.tables(view, start, s.limit - i)));
        }
        if StopsScan(instr.op) {
          return;
        }
        pc := Wrap32(pc + instr.len);
      }
    }

    /** ng_dispatch_audit_build_with_config */
    method Build()
      requires Valid()
      modifies this
      ensures Valid()
      ensures !truncated ==> forall k :: 0 <= k < |s.t.items| && IsScanned(s.t, k) ==> Complete(k)
    {
      hide Valid, IsScanned;
      var haveScanRoots := false;
      for i := 0 to |s.t.items|
        invariant haveScanRoots <==> exists k :: 0 <= k < i && s.t.items[k].root
      {
        if s.t.items[i].root {
          haveScanRoots := true;
        }
      }
      for k := 0 to |s.t.items|
        invariant Valid()
        invariant !truncated ==> forall j :: 0 <= j < k && IsScanned(s.t, j) ==> Complete(j)
      {
        assert IsScanned(s.t, k) <==> !haveScanRoots || s.t.items[k].root by { ScannedWhen(s.t, k); }
        if haveScanRoots && !s.t.items[k].root {
          continue;
        }
        label Before:
        ScanFrom(k);
        assert !truncated ==> forall j :: 0 <= j < k && old@Before(Complete(j)) ==> Complete(j);
      }
    }

    /** Everything on the scan of entry k has been seen. */
    ghost predicate Complete(k: nat)
      requires k < |s.t.items|
      reads this
    {
      var view := s.c.ViewOf(s.t.items[k].bank);
      forall a: u32 :: OnScan(s.c, view, s.t.items[k].addr, s.limit, a) ==> (a, s.c.BankFor(view, a)) in seen
    }
  }

  lemma ScannedWhen(t: D.Table, k: nat)
    requires k < |t.items|
    ensures IsScanned(t, k) <==> !HaveScanRoots(t) || t.items[k].root
  {
  }

  lemma JustifiedBy(s: Subject, v: Visit, site: Site)
    requires Genuine(s, v) && SiteAt(s, v, s.c.view(v.view)(v.addr).value) == Some(site)
    ensures Justified(s, site)
  {
    hide Genuine, SiteAt;
  }

  lemma IsGenuine(s: Subject, k: nat, v: Visit)
    requires k < |s.t.items| && IsScanned(s.t, k) && v.view == s.c.ViewOf(s.t.items[k].bank)
    requires v.bank == s.c.BankFor(v.view, v.addr) && s.c.IsCode(v.view, v.addr)
    requires OnScan(s.c, v.view, s.t.items[k].addr, s.limit, v.addr)
    ensures Genuine(s, v)
  {
    hide OnScan, IsScanned;
  }

  // ---------------------------------------------------------------- one site for each dispatch

  lemma {:induction false} SiteHasVisit(s: Subject, visits: seq<Visit>, site: Site) returns (k: nat)
    requires (forall j :: 0 <= j < |visits| ==> Located(s, visits[j])) && site in SitesOf(s, visits)
    ensures k < |visits| && site.addr == visits[k].addr && site.bank == visits[k].bank
  {
    hide SiteAt;
    var n := |visits| - 1;
    if site in SitesOf(s, visits[..n]) {
      k := SiteHasVisit(s, visits[..n], site);
    } else {
      k := n;
      assert Located(s, visits[n]);
      SiteIsLocated(s, visits[n], s.c.view(visits[n].view)(visits[n].addr).value);
    }
  }

  /** The decoder puts the instruction where it was read, in 24-bit space. */
  predicate Located(s: Subject, v: Visit) {
    v.addr < 0x100_0000
    && (s.c.view(v.view)(v.addr).Some? ==> s.c.view(v.view)(v.addr).value.addr == v.addr)
  }

  lemma SiteIsLocated(s: Subject, v: Visit, i: Instr)
    requires i.addr == v.addr < 0x100_0000 && SiteAt(s, v, i).Some?
    ensures SiteAt(s, v, i).value.addr == v.addr && SiteAt(s, v, i).value.bank == v.bank
  {
  }

  /** An untruncated audit has no two sites for one address and bank. */
  lemma {:induction false} OneSitePerAddress(s: Subject, visits: seq<Visit>, j: nat, k: nat)
    requires forall i :: 0 <= i < |visits| ==> Located(s, visits[i])
    requires forall i, i1 :: 0 <= i < i1 < |visits| ==>
               (visits[i].addr, visits[i].bank) != (visits[i1].addr, visits[i1].bank)
    requires j < k < |SitesOf(s, visits)|
    ensures (SitesOf(s, visits)[j].addr, SitesOf(s, visits)[j].bank)
            != (SitesOf(s, visits)[k].addr, SitesOf(s, visits)[k].bank)
  {
    hide SiteAt, Located;
    var n := |visits| - 1;
    var front := SitesOf(s, visits[..n]);
    if k < |front| {
      OneSitePerAddress(s, visits[..n], j, k);
    } else {
      var i := SiteHasVisit(s, visits[..n], front[j]);
      LocatedAt(s, visits[n]);
      SiteIsLocated(s, visits[n], s.c.view(visits[n].view)(visits[n].addr).value);
      assert visits[..n][i] == visits[i];
    }
  }

  lemma LocatedAt(s: Subject, v: Visit)
    requires Located(s, v)
    ensures v.addr < 0x100_0000
    ensures s.c.view(v.view)(v.addr).Some? ==> s.c.view(v.view)(v.addr).value.addr == v.addr
  {
  }

  /** No dispatch that was visited is left out. */
  lemma {:induction false} EveryDispatchHasASite(s: Subject, visits: seq<Visit>, k: nat)
    requires k < |visits| && s.c.IsCode(visits[k].view, visits[k].addr)
    requires IsDispatch(s.c.view(visits[k].view)(visits[k].addr).value.op)
    ensures exists site :: site in SitesOf(s, visits)
              && Some(site) == SiteAt(s, visits[k], s.c.view(visits[k].view)(visits[k].addr).value)
  {
    var n := |visits| - 1;
    if k < n {
      EveryDispatchHasASite(s, visits[..n], k);
      var site :| site in SitesOf(s, visits[..n])
                  && Some(site) == SiteAt(s, visits[k], s.c.view(visits[k].view)(visits[k].addr).value);
      assert site in SitesOf(s, visits);
    } else {
      var last := SitesOf(s, visits);
      assert last[|last| - 1] in last;
    }
  }

  // ---------------------------------------------------------------- the two scanners agree

  lemma SameTests(op: Op)
    ensures IsDirectTarget(op) <==> D.IsDirect(op)
    ensures IsDirectTarget(op) ==> D.StaticTarget(op) == Some(TargetOf(op))
    ensures StopsScan(op) == D.StopsScan(op)
  {
  }

  /** Wherever the audit meets a direct call or jump, discovery asked for its target. */
  lemma {:induction false} DirectIsAsked(c: D.Cartridge, scanner: D.Scanner, view: u32, start: u32, pc: u32,
                                         left: nat, addr: u32)
    requires OnScan(c, view, pc, left, addr)
    requires IsDirectTarget(c.view(view)(addr).value.op)
    ensures D.Ask(view, TargetOf(c.view(view)(addr).value.op), D.Entry) in D.ScanFrom(c, scanner, view, start, pc, left)
    decreases left
  {
    hide D.Here, StopsScan, IsDirectTarget, D.StopsScan, TargetOf;
    var i := c.view(view)(pc).value;
    var hint := scanner.hint(view, start, left);
    SameTests(i.op);
    if addr == pc {
      TargetAskedHere(hint, view, start, pc, i);
    } else {
      DirectIsAsked(c, scanner, view, start, Wrap32(pc + i.len), left - 1, addr);
    }
  }

  lemma TargetAskedHere(hint: (seq<u32>, seq<u32>), view: u32, start: u32, pc: u32, i: Instr)
    requires IsDirectTarget(i.op)
    ensures D.Ask(view, TargetOf(i.op), D.Entry) in D.Here(hint, view, start, pc, i)
  {
    hide IsDirectTarget, TargetOf, D.StaticTarget;
    SameTests(i.op);
    assert D.Ask(view, TargetOf(i.op), D.Entry) in D.TargetAsk(view, i.op);
  }

  /** Discovery has put into the table what scanning the audited entries asks for. */
  ghost predicate TableScanned(s: Subject, scanner: D.Scanner) {
    && s.limit == scanner.limit
    && forall k :: 0 <= k < |s.t.items| && IsScanned(s.t, k) ==>
         D.AllSatisfied(s.c, s.t, D.Scan(s.c, scanner, s.c.ViewOf(s.t.items[k].bank), s.t.items[k].addr))
  }

  ghost predicate CodeIsMapped(s: Subject) {
    forall view: u32, a: u32 :: s.c.Probable(view, a) ==> s.mapped(view, a)
  }

  /** A direct target that is code, through the bank it was met in, is in the table. */
  lemma CodeIsDiscovered(s: Subject, scanner: D.Scanner, v: Visit)
    requires TableScanned(s, scanner) && CodeIsMapped(s) && Genuine(s, v)
    requires IsDirectTarget(s.c.view(v.view)(v.addr).value.op)
    ensures var target := TargetOf(s.c.view(v.view)(v.addr).value.op);
            s.c.Probable(v.view, target) && !IsExternal(target) ==> DirectTarget(s, v.view, target).inDiscovery
  {
    hide IsDirectTarget, OnScan, IsScanned, D.ScanFrom, TargetOf;
    var k :| 0 <= k < |s.t.items| && IsScanned(s.t, k) && v.view == s.c.ViewOf(s.t.items[k].bank)
             && OnScan(s.c, v.view, s.t.items[k].addr, s.limit, v.addr);
    var start, target := s.t.items[k].addr, TargetOf(s.c.view(v.view)(v.addr).value.op);
    DirectIsAsked(s.c, scanner, v.view, start, start, s.limit, v.addr);
    var asks := D.Scan(s.c, scanner, v.view, start);
    assert D.Ask(v.view, target, D.Entry) in asks;
    var j :| 0 <= j < |asks| && asks[j] == D.Ask(v.view, target, D.Entry);
    assert D.Satisfied(s.c, s.t, asks[j]);
  }

  /** The audit raises no alarm about valid code: a direct site it reports missing
      is a real instruction whose target fails the code filter. */
  lemma MissingIsNotCode(s: Subject, scanner: D.Scanner, site: Site) returns (v: Visit)
    requires TableScanned(s, scanner) && CodeIsMapped(s)
    requires Justified(s, site) && site.IsMissing()
    ensures Genuine(s, v) && SiteAt(s, v, s.c.view(v.view)(v.addr).value) == Some(site)
    ensures var op := s.c.view(v.view)(v.addr).value.op;
            IsDirectTarget(op) && !s.c.Probable(v.view, TargetOf(op))
  {
    hide TableScanned, IsDirectTarget, TargetOf, OnScan;
    v :| Genuine(s, v) && SiteAt(s, v, s.c.view(v.view)(v.addr).value) == Some(site);
    CodeIsDiscovered(s, scanner, v);
  }

  /** In a flat ROM the two scanners agree exactly: a direct target inside the program
      ROM is reported missing if and only if there is no code there. */
  lemma MissingIffNotCode(s: Subject, scanner: D.Scanner, seeds: seq<D.Ask>, v: Visit)
    requires TableScanned(s, scanner) && CodeIsMapped(s) && Genuine(s, v)
    requires C.Finished(s.c, scanner, seeds, s.t)
    requires IsDirectTarget(s.c.view(v.view)(v.addr).value.op)
    ensures var target := TargetOf(s.c.view(v.view)(v.addr).value.op);
            !IsExternal(target) ==> (DirectTarget(s, v.view, target).inDiscovery <==> C.Probable(s.c, target))
  {
    hide IsDirectTarget, TargetOf, OnScan, IsScanned, TableScanned, CodeIsMapped, IsExternal, D.Closed, D.Find;
    C.TableIsFlat(s.c, scanner, seeds, s.t);
    var target := TargetOf(s.c.view(v.view)(v.addr).value.op);
    CodeIsDiscovered(s, scanner, v);
    if !IsExternal(target) && DirectTarget(s, v.view, target).inDiscovery {
      FlatKey(s, v, target);
      C.KeyIsFact(s.t, target);
      C.KeysReach(s.c, scanner, seeds, D.Facts(s.t), target);
    }
  }

  lemma FlatKey(s: Subject, v: Visit, target: u32)
    requires C.FlatRom(s.c) && DirectTarget(s, v.view, target).inDiscovery
    ensures C.IsKey(s.t, target)
  {
    hide WellFormed;
  }
}
