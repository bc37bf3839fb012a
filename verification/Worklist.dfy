/** The discovery worklist: ng_function_discover_from_game_config_limited over the
    arrays of NgFunctionDiscovery, and what is true of the table it leaves. */
module Worklist {
  import opened Machine
  import opened Isa
  import opened Discovery

  const MAX_CANDIDATES := 131072

  /** add_script_stream_callbacks_from_discovery: what it adds to a given table. */
  type ScriptPass = Table -> seq<Ask>

  // ---------------------------------------------------------------- the loop's state

  /** Slot i has been scanned: it is a scan root, and its scan is in the table. */
  ghost predicate ScanDone(c: Cartridge, scanner: Scanner, t: Table, i: nat) {
    && i < |t.items| && t.items[i].root
    && (!t.truncated ==> AllSatisfied(c, t, Scan(c, scanner, c.ViewOf(t.items[i].bank), t.items[i].addr)))
  }

  ghost predicate Within(c: Cartridge, scanner: Scanner, asked: seq<Ask>, t: Table) {
    forall s: iset<Fact> :: Closed(c, scanner, asked, s) ==> Facts(t) <= s
  }

  /** Everything asked for so far is in the table, so are the scans of the slots
      marked, and nothing is in the table that those do not lead to. */
  ghost predicate Working(c: Cartridge, scanner: Scanner, max: nat, asked: seq<Ask>, t: Table, scanned: seq<bool>) {
    && Good(t, max) && |scanned| == max
    && (forall i :: 0 <= i < max && scanned[i] ==> ScanDone(c, scanner, t, i))
    && (!t.truncated ==> AllSatisfied(c, t, asked))
    && Within(c, scanner, asked, t)
  }

  predicate AllScanned(t: Table, scanned: seq<bool>)
    requires |t.items| <= |scanned|
  {
    forall i :: 0 <= i < |t.items| && t.items[i].root ==> scanned[i]
  }

  lemma NothingYet(c: Cartridge, scanner: Scanner, max: nat, scanned: seq<bool>)
    requires |scanned| == max && forall i :: 0 <= i < max ==> !scanned[i]
    ensures Working(c, scanner, max, [], Table([], false), scanned)
  {
    assert forall f: Fact :: !HasFact(Table([], false), f);
  }

  /** Adding further requests, from outside or from the script pass. */
  lemma MoreAsked(c: Cartridge, scanner: Scanner, max: nat, asked: seq<Ask>, t: Table, scanned: seq<bool>,
                  more: seq<Ask>)
    requires Working(c, scanner, max, asked, t, scanned)
    ensures Working(c, scanner, max, asked + more, AddAll(c, max, t, more), scanned)
  {
    hide Good, AddAll, AllSatisfied, Closed, Facts, Scan;
    var t1 := AddAll(c, max, t, more);
    AddAllKeeps(c, max, t, more);
    StillDone(c, scanner, max, t, t1, scanned);
    if !t1.truncated {
      SatisfiedStays(c, t, t1, asked);
      SatisfiedTogether(c, t1, asked, more);
    }
    forall s: iset<Fact> | Closed(c, scanner, asked + more, s) ensures Facts(t1) <= s {
      ClosedParts(c, scanner, asked, more, s);
      AddAllWithin(c, max, t, more, s);
    }
  }

  lemma StillDone(c: Cartridge, scanner: Scanner, max: nat, t: Table, t1: Table, scanned: seq<bool>)
    requires Extends(t, t1) && |scanned| == max
    requires forall i :: 0 <= i < max && scanned[i] ==> ScanDone(c, scanner, t, i)
    ensures forall i :: 0 <= i < max && scanned[i] ==> ScanDone(c, scanner, t1, i)
  {
    hide AllSatisfied, Scan;
    forall i | 0 <= i < max && scanned[i] ensures ScanDone(c, scanner, t1, i) {
      assert ScanDone(c, scanner, t, i);
      assert Raised(t.items[i], t1.items[i]);
      if !t1.truncated {
        SatisfiedStays(c, t, t1, Scan(c, scanner, c.ViewOf(t.items[i].bank), t.items[i].addr));
      }
    }
  }

  lemma SatisfiedTogether(c: Cartridge, t: Table, xs: seq<Ask>, ys: seq<Ask>)
    requires AllSatisfied(c, t, xs) && AllSatisfied(c, t, ys)
    ensures AllSatisfied(c, t, xs + ys)
  {
    hide Satisfied;
  }

  lemma ClosedParts(c: Cartridge, scanner: Scanner, xs: seq<Ask>, ys: seq<Ask>, s: iset<Fact>)
    requires Closed(c, scanner, xs + ys, s)
    ensures Closed(c, scanner, xs, s) && Includes(c, s, ys) && Downward(s)
  {
    hide Downward, Scan;
    assert Includes(c, s, xs + ys);
    forall k | 0 <= k < |xs| && c.Probable(xs[k].bank, xs[k].addr) ensures FactOf(c, xs[k]) in s {
      assert (xs + ys)[k] == xs[k];
    }
    forall k | 0 <= k < |ys| && c.Probable(ys[k].bank, ys[k].addr) ensures FactOf(c, ys[k]) in s {
      assert (xs + ys)[|xs| + k] == ys[k];
    }
  }

  /** Scanning one more root. */
  lemma OneScanned(c: Cartridge, scanner: Scanner, max: nat, asked: seq<Ask>, t: Table, scanned: seq<bool>, index: nat)
    requires Working(c, scanner, max, asked, t, scanned) && index < |t.items| && t.items[index].root
    ensures var asks := Scan(c, scanner, c.ViewOf(t.items[index].bank), t.items[index].addr);
            Working(c, scanner, max, asked, AddAll(c, max, t, asks), scanned[index := true])
  {
    hide Good, AddAll, AllSatisfied, Closed, Facts, Scan;
    var item := t.items[index];
    var asks := Scan(c, scanner, c.ViewOf(item.bank), item.addr);
    var t1 := AddAll(c, max, t, asks);
    assert |t.items| <= max by { WithinLimit(t, max); }
    AddAllKeeps(c, max, t, asks);
    assert Raised(t.items[index], t1.items[index]);
    StillDone(c, scanner, max, t, t1, scanned);
    if !t1.truncated {
      SatisfiedStays(c, t, t1, asked);
    }
    assert ScanDone(c, scanner, t1, index);
    forall s: iset<Fact> | Closed(c, scanner, asked, s) ensures Facts(t1) <= s {
      RootFact(t, max, index);
      assert Fact(item.addr, item.bank, Root) in Facts(t);
      RootIncludes(c, scanner, asked, s, item.addr, item.bank);
      AddAllWithin(c, max, t, asks, s);
    }
  }

  lemma WithinLimit(t: Table, max: nat)
    requires Good(t, max)
    ensures |t.items| <= max
  {
  }

  lemma RootFact(t: Table, max: nat, index: nat)
    requires Good(t, max) && index < |t.items| && t.items[index].root
    ensures Fact(t.items[index].addr, t.items[index].bank, Root) in Facts(t)
  {
    assert Find(t.items, t.items[index].addr, t.items[index].bank) == index;
  }

  lemma RootIncludes(c: Cartridge, scanner: Scanner, asked: seq<Ask>, s: iset<Fact>, addr: u32, bank: u32)
    requires Closed(c, scanner, asked, s) && Fact(addr, bank, Root) in s
    ensures Includes(c, s, Scan(c, scanner, c.ViewOf(bank), addr)) && Downward(s)
  {
    hide Scan, Includes, Downward;
  }

  // ---------------------------------------------------------------- the finished table

  /** Once every root is scanned and nothing was cut off, the table is the least set
      of facts closed under scanning that has the seeds. */
  lemma TableIsLeastClosed(c: Cartridge, scanner: Scanner, max: nat, asked: seq<Ask>, t: Table, scanned: seq<bool>)
    requires Working(c, scanner, max, asked, t, scanned) && !t.truncated
    requires AllScanned(t, scanned)
    ensures Closed(c, scanner, asked, Facts(t))
    ensures forall s: iset<Fact> :: Closed(c, scanner, asked, s) ==> Facts(t) <= s
  {
    hide Scan, Good;
    FactsGoDown(t, max);
    SatisfiedIsIncluded(c, t, asked);
    forall a: u32, b: u32 | Fact(a, b, Root) in Facts(t)
      ensures Includes(c, Facts(t), Scan(c, scanner, c.ViewOf(b), a))
    {
      var j := Find(t.items, a, b);
      assert t.items[j].root;
      assert j < max by { WithinLimit(t, max); }
      assert scanned[j] && ScanDone(c, scanner, t, j);
      SatisfiedIsIncluded(c, t, Scan(c, scanner, c.ViewOf(b), a));
    }
  }

  lemma FactsGoDown(t: Table, max: nat)
    requires Good(t, max)
    ensures Downward(Facts(t))
  {
    forall a: u32, b: u32
      ensures Fact(a, b, Entry) in Facts(t) ==> Fact(a, b, Root) in Facts(t)
      ensures Fact(a, b, Root) in Facts(t) ==> Fact(a, b, Label) in Facts(t)
    {
      var j := Find(t.items, a, b);
    }
  }

  lemma SatisfiedIsIncluded(c: Cartridge, t: Table, asks: seq<Ask>)
    requires AllSatisfied(c, t, asks)
    ensures Includes(c, Facts(t), asks)
  {
    hide HasFact, FactOf;
    forall k | 0 <= k < |asks| && c.Probable(asks[k].bank, asks[k].addr) ensures FactOf(c, asks[k]) in Facts(t) {
      assert Satisfied(c, t, asks[k]);
    }
  }

  /** A table worked through: within every closed set that has the seeds, and closed
      itself unless something was cut off. */
  ghost predicate LeastTable(c: Cartridge, scanner: Scanner, max: nat, asked: seq<Ask>, t: Table) {
    Good(t, max) && Within(c, scanner, asked, t) && (!t.truncated ==> Closed(c, scanner, asked, Facts(t)))
  }

  lemma WorkedThrough(c: Cartridge, scanner: Scanner, max: nat, asked: seq<Ask>, t: Table, scanned: seq<bool>)
    requires Working(c, scanner, max, asked, t, scanned) && |t.items| <= |scanned| && AllScanned(t, scanned)
    ensures LeastTable(c, scanner, max, asked, t)
  {
    hide Good, Closed, Facts, AllSatisfied, ScanDone;
    if !t.truncated {
      TableIsLeastClosed(c, scanner, max, asked, t, scanned);
    }
  }

  /** Seeds in any order, with any repetition, lead to the same table, whatever the
      limits are. */
  lemma SeedOrderDoesNotMatter(c: Cartridge, scanner: Scanner, max1: nat, max2: nat, seeds1: seq<Ask>, seeds2: seq<Ask>,
                               t1: Table, t2: Table)
    requires forall ask :: ask in seeds1 <==> ask in seeds2
    requires LeastTable(c, scanner, max1, seeds1, t1) && LeastTable(c, scanner, max2, seeds2, t2)
    requires !t1.truncated && !t2.truncated
    ensures Facts(t1) == Facts(t2)
    ensures forall addr, bank :: Find(t1.items, addr, bank) < |t1.items| <==> Find(t2.items, addr, bank) < |t2.items|
  {
    hide Closed, Facts, HasFact, Good;
    SameSeeds(c, scanner, seeds1, seeds2, Facts(t2));
    SameSeeds(c, scanner, seeds2, seeds1, Facts(t1));
    forall addr: u32, bank: u32
      ensures Find(t1.items, addr, bank) < |t1.items| <==> Find(t2.items, addr, bank) < |t2.items|
    {
      KeyIsLabelFact(t1, addr, bank);
      KeyIsLabelFact(t2, addr, bank);
    }
  }

  lemma SameSeeds(c: Cartridge, scanner: Scanner, seeds1: seq<Ask>, seeds2: seq<Ask>, s: iset<Fact>)
    requires forall ask :: ask in seeds1 ==> ask in seeds2
    requires Closed(c, scanner, seeds2, s)
    ensures Closed(c, scanner, seeds1, s)
  {
    hide Scan, Downward;
    forall k | 0 <= k < |seeds1| && c.Probable(seeds1[k].bank, seeds1[k].addr) ensures FactOf(c, seeds1[k]) in s {
      assert seeds1[k] in seeds2;
    }
  }

  lemma KeyIsLabelFact(t: Table, addr: u32, bank: u32)
    ensures Fact(addr, bank, Label) in Facts(t) <==> Find(t.items, addr, bank) < |t.items|
  {
  }

  // ---------------------------------------------------------------- the arrays

  function Zip(addrs: seq<u32>, banks: seq<u32>, entries: seq<bool>, roots: seq<bool>): (r: seq<Item>)
    requires |addrs| == |banks| == |entries| == |roots|
    ensures |r| == |addrs|
  {
    seq(|addrs|, i requires 0 <= i < |addrs| => Item(addrs[i], banks[i], entries[i], roots[i]))
  }

  /** struct NgFunctionDiscovery, with banks[i] = NG_FUNCTION_DISCOVERY_BANK_NONE for
      the slots whose banked flag is clear. */
  class Candidates {
    const c: Cartridge
    const scanner: Scanner
    const addrs: array<u32>
    const banks: array<u32>
    const entries: array<bool>
    const scanRoots: array<bool>
    var count: nat
    var maxCandidates: nat
    var truncated: bool

    ghost predicate Valid()
      reads this
    {
      && addrs != banks && entries != scanRoots
      && addrs.Length == banks.Length == entries.Length == scanRoots.Length == MAX_CANDIDATES
      && count <= maxCandidates <= MAX_CANDIDATES
    }

    function Contents(): Table
      reads this, addrs, banks, entries, scanRoots
      requires Valid()
    {
      Table(Zip(addrs[..count], banks[..count], entries[..count], scanRoots[..count]), truncated)
    }

    /** ng_function_discovery_init, then ng_function_discovery_set_max_candidates */
    constructor (c: Cartridge, scanner: Scanner, limit: nat)
      ensures Valid() && fresh(addrs) && fresh(banks) && fresh(entries) && fresh(scanRoots)
      ensures this.c == c && this.scanner == scanner && Contents() == Table([], false)
      ensures maxCandidates == if limit == 0 || limit > MAX_CANDIDATES then MAX_CANDIDATES else limit
    {
      this.c, this.scanner := c, scanner;
      addrs := new u32[MAX_CANDIDATES](_ => 0);
      banks := new u32[MAX_CANDIDATES](_ => NO_BANK);
      entries := new bool[MAX_CANDIDATES](_ => false);
      scanRoots := new bool[MAX_CANDIDATES](_ => false);
      count, truncated := 0, false;
      maxCandidates := if limit == 0 || limit > MAX_CANDIDATES then MAX_CANDIDATES else limit;
    }

    /** The slot of a key, or count. */
    method FindSlot(addr: u32, bank: u32) returns (i: nat)
      requires Valid()
      ensures i == Find(Contents().items, addr, bank)
    {
      ghost var items := Contents().items;
      i := 0;
      while i < count
        invariant i <= count && Find(items, addr, bank) >= i
      {
        assert items[i].addr == addrs[i] && items[i].bank == banks[i];
        if addrs[i] == addr && banks[i] == bank {
          FindIs(items, addr, bank, i);
          return;
        }
        i := i + 1;
      }
    }

    method AddWithFlags(ask: Ask) returns (added: bool)
      requires Valid()
      modifies this`count, this`truncated, addrs, banks, entries, scanRoots
      ensures Valid()
      ensures Contents() == AddOne(c, maxCandidates, old(Contents()), ask)
      ensures added <==> c.Probable(ask.bank, ask.addr) && HasFact(Contents(), FactOf(c, ask))
    {
      hide Find, HasFact;
      var addr, bank, kind := ask.addr, c.BankFor(ask.bank, ask.addr), ask.kind;
      if !c.Probable(ask.bank, addr) {
        return false;
      }
      ghost var t := Contents();
      var i := FindSlot(addr, bank);
      if i < count {
        if kind.Entry? { entries[i] := true; }
        if !kind.Label? { scanRoots[i] := true; }
        assert Contents().items == t.items[i := t.items[i].Promote(kind)];
        FoundAgain(t, i, addr, bank, kind);
        return true;
      }
      if count >= maxCandidates {
        truncated := true;
        assert Contents() == t.(truncated := true);
        KeyMissing(Contents(), addr, bank, kind);
        return false;
      }
      addrs[count], banks[count] := addr, bank;
      entries[count], scanRoots[count] := kind.Entry?, !kind.Label?;
      count := count + 1;
      assert Contents().items == t.items + [Item(addr, bank, false, false).Promote(kind)];
      FoundLast(t, addr, bank, kind);
      added := true;
    }

    method AddList(asks: seq<Ask>)
      requires Valid()
      modifies this`count, this`truncated, addrs, banks, entries, scanRoots
      ensures Valid()
      ensures Contents() == AddAll(c, maxCandidates, old(Contents()), asks)
    {
      hide AddOne, Find;
      for k := 0 to |asks|
        invariant Valid()
        invariant AddAll(c, maxCandidates, Contents(), asks[k..]) == AddAll(c, maxCandidates, old(Contents()), asks)
      {
        assert asks[k..][0] == asks[k] && asks[k..][1..] == asks[k + 1..];
        var _ := AddWithFlags(asks[k]);
      }
    }

    /** scan_function_candidate */
    method ScanCandidate(bank: u32, start: u32)
      requires Valid()
      modifies this`count, this`truncated, addrs, banks, entries, scanRoots
      ensures Valid()
      ensures Contents() == AddAll(c, maxCandidates, old(Contents()), Scan(c, scanner, bank, start))
    {
      hide AddOne, Find, Here, StopsScan, AddAll, Zip;
      ghost var whole := AddAll(c, maxCandidates, Contents(), Scan(c, scanner, bank, start));
      var pc: u32 := start;
      for i := 0 to scanner.limit
        invariant Valid()
        invariant AddAll(c, maxCandidates, Contents(), ScanFrom(c, scanner, bank, start, pc, scanner.limit - i))
                  == whole
      {
        var left := scanner.limit - i;
        if !c.IsCode(bank, pc) {
          AddNothing(c, maxCandidates, Contents());
          return;
        }
        var instr := c.view(bank)(pc).value;
        ghost var here := Here(scanner.hint(bank, start, left), bank, start, pc, instr);
        ghost var rest := if StopsScan(instr.op) then []
                          else ScanFrom(c, scanner, bank, start, Wrap32(pc + instr.len), left - 1);
        AddAllAppend(c, maxCandidates, Contents(), here, rest);
        AddInstruction(bank, start, pc, left, instr);
        if StopsScan(instr.op) {
          AddNothing(c, maxCandidates, Contents());
          return;
        }
        pc := Wrap32(pc + instr.len);
      }
      AddList(if pc != start then [Ask(bank, pc, Root)] else []);
    }

    /** The additions made for one instruction, in the order the scan makes them. */
    method AddInstruction(bank: u32, start: u32, pc: u32, left: nat, instr: Instr)
      requires Valid()
      modifies this`count, this`truncated, addrs, banks, entries, scanRoots
      ensures Valid()
      ensures Contents() == AddAll(c, maxCandidates, old(Contents()),
                                   Here(scanner.hint(bank, start, left), bank, start, pc, instr))
    {
      hide AddOne, Find, AddAll, Zip, StaticTarget;
      var h := scanner.hint(bank, start, left);
      ghost var l, e, d := LabelAsk(bank, start, pc), Entries(bank, h.0), TargetAsk(bank, instr.op);
      ghost var f, r := Entries(bank, h.1), ReturnAsk(bank, pc, instr);
      ghost var t := Contents();
      AddAllAppend(c, maxCandidates, t, l, e + (d + (f + r)));
      AddList(LabelAsk(bank, start, pc));
      AddAllAppend(c, maxCandidates, Contents(), e, d + (f + r));
      AddList(Entries(bank, h.0));
      AddAllAppend(c, maxCandidates, Contents(), d, f + r);
      AddList(TargetAsk(bank, instr.op));
      AddAllAppend(c, maxCandidates, Contents(), f, r);
      AddList(Entries(bank, h.1));
      AddList(ReturnAsk(bank, pc, instr));
    }

    /** A scan root not yet scanned: forward from the cursor first, then anywhere. */
    method NextRoot(scanned: array<bool>, cursor: nat) returns (index: nat, cursor1: nat)
      requires Valid() && scanned.Length == maxCandidates
      ensures index <= count && cursor <= cursor1
      ensures index < count ==> Contents().items[index].root && !scanned[index]
      ensures index == count ==> AllScanned(Contents(), scanned[..])
    {
      cursor1 := cursor;
      while cursor1 < count
        invariant cursor <= cursor1
      {
        if scanRoots[cursor1] && !scanned[cursor1] {
          return cursor1, cursor1 + 1;
        }
        cursor1 := cursor1 + 1;
      }
      var limit := if cursor1 < count then cursor1 else count;
      for i := 0 to limit
        invariant forall k :: 0 <= k < i && scanRoots[k] ==> scanned[k]
      {
        if scanRoots[i] && !scanned[i] {
          return i, cursor1;
        }
      }
      index := count;
    }

    /** add_script_stream_callbacks_from_discovery: how many keys it added */
    method AddScriptCallbacks(script: ScriptPass) returns (added: nat)
      requires Valid()
      modifies this`count, this`truncated, addrs, banks, entries, scanRoots
      ensures Valid()
      ensures var before := old(Contents());
              && Contents() == AddAll(c, maxCandidates, before, script(before))
              && |Contents().items| == |before.items| + added
    {
      hide AddAll, Zip, Find, AddOne;
      ghost var t := Contents();
      var before, asks := count, script(Contents());
      NeverShrinks(c, maxCandidates, t, asks);
      AddList(asks);
      added := count - before;
    }

    /** The worklist loop.  `before` is the table the script pass was shown. */
    method ScanAll(script: ScriptPass, ghost seeds: seq<Ask>) returns (ghost before: Table, ghost scanned: seq<bool>)
      requires Valid()
      requires Working(c, scanner, maxCandidates, seeds, Contents(), seq(maxCandidates, _ => false))
      modifies this`count, this`truncated, addrs, banks, entries, scanRoots
      ensures Valid()
      ensures Outcome(script, seeds, before, Contents(), scanned)
      ensures |old(Contents()).items| <= |Contents().items|
    {
      hide Working, LeastTable, AddAll, Scan, Extends, Zip;
      var done := new bool[maxCandidates](_ => false);
      var cursor, scriptPassDone := 0, false;
      ghost var asked := seeds;
      scanned := seq(maxCandidates, _ => false);
      assert done[..] == scanned;
      before := Contents();
      while true
        invariant Valid() && fresh(done) && done.Length == maxCandidates == |scanned| && done[..] == scanned
        invariant Working(c, scanner, maxCandidates, asked, Contents(), scanned)
        invariant asked == if scriptPassDone then seeds + script(before) else seeds
        invariant scriptPassDone ==> |before.items| <= |scanned| && AllScanned(before, scanned)
        invariant scriptPassDone ==> Extends(before, Contents())
        invariant scriptPassDone ==> LeastTable(c, scanner, maxCandidates, seeds, before)
        invariant scriptPassDone ==> |AddAll(c, maxCandidates, before, script(before)).items| > |before.items|
        invariant |old(Contents()).items| <= |Contents().items|
        decreases Remaining(scanned), !scriptPassDone
      {
        var index, cursor1 := NextRoot(done, cursor);
        cursor := cursor1;
        if index == count {
          if !scriptPassDone {
            scriptPassDone := true;
            before := Contents();
            AddKeepsAll(c, scanner, maxCandidates, asked, before, scanned, []);
            WorkedThrough(c, scanner, maxCandidates, asked, before, scanned);
            MoreAsked(c, scanner, maxCandidates, asked, before, scanned, script(before));
            AddKeepsAll(c, scanner, maxCandidates, asked, before, scanned, script(before));
            asked := seeds + script(before);
            var added := AddScriptCallbacks(script);
            if added != 0 {
              cursor := 0;
              continue;
            }
            PromotionsScanned(c, scanner, maxCandidates, seeds, before, Contents(), scanned);
          }
          break;
        }
        ScanOne(index, asked, scanned, scriptPassDone, before);
        FewerRemain(scanned, index);
        done[index] := true;
        scanned := done[..];
        ScanCandidate(c.ViewOf(banks[index]), addrs[index]);
      }
    }

    /** Scanning slot `index` keeps the loop's promises. */
    lemma ScanOne(index: nat, asked: seq<Ask>, scanned: seq<bool>, passDone: bool, before: Table)
      requires Valid() && index < count && |scanned| == maxCandidates
      requires Working(c, scanner, maxCandidates, asked, Contents(), scanned) && Contents().items[index].root
      requires passDone ==> |before.items| <= |scanned| && AllScanned(before, scanned) && Extends(before, Contents())
      ensures var t1 := AddAll(c, maxCandidates, Contents(), Scan(c, scanner, c.ViewOf(banks[index]), addrs[index]));
              && Working(c, scanner, maxCandidates, asked, t1, scanned[index := true])
              && |Contents().items| <= |t1.items|
              && (passDone ==> AllScanned(before, scanned[index := true]) && Extends(before, t1))
    {
      hide Working, AddAll, Scan, Extends;
      var asks := Scan(c, scanner, c.ViewOf(banks[index]), addrs[index]);
      AddKeepsAll(c, scanner, maxCandidates, asked, Contents(), scanned, asks);
      if passDone {
        ExtendsTransitive(before, Contents(), AddAll(c, maxCandidates, Contents(), asks));
      }
      OneScanned(c, scanner, maxCandidates, asked, Contents(), scanned, index);
    }

    /** What the loop leaves: the seeds had been worked through when the script pass
        ran, then what that asked for has been; every root has been scanned unless the
        script pass promoted one and added nothing. */
    ghost predicate Outcome(script: ScriptPass, seeds: seq<Ask>, before: Table, after: Table, scanned: seq<bool>)
      reads this
    {
      && |after.items| <= |scanned| && |before.items| <= |scanned|
      && LeastTable(c, scanner, maxCandidates, seeds, before)
      && Working(c, scanner, maxCandidates, seeds + script(before), after, scanned)
      && AllScanned(before, scanned) && Extends(before, after)
      && (AllScanned(after, scanned) <==> !LosesPromotion(before, AddAll(c, maxCandidates, before, script(before))))
    }

    /** When the script pass adds nothing, every root has been scanned. */
    lemma RootsScanned(script: ScriptPass, seeds: seq<Ask>, before: Table, after: Table, scanned: seq<bool>)
      requires Outcome(script, seeds, before, after, scanned) && script(before) == []
      ensures |after.items| <= |scanned| && AllScanned(after, scanned)
    {
      hide Working, Extends;
      AddNothing(c, maxCandidates, before);
    }

    /** When the script pass adds nothing and nothing was cut off, the table is the
        least set that has the seeds and is closed under scanning. */
    lemma WithoutInterpreter(script: ScriptPass, seeds: seq<Ask>, before: Table, after: Table, scanned: seq<bool>)
      requires Outcome(script, seeds, before, after, scanned)
      requires script(before) == [] && !after.truncated
      ensures LeastTable(c, scanner, maxCandidates, seeds, after)
      ensures Closed(c, scanner, seeds, Facts(after))
      ensures forall s: iset<Fact> :: Closed(c, scanner, seeds, s) ==> Facts(after) <= s
    {
      hide Working, Closed, Facts, Extends, Good;
      RootsScanned(script, seeds, before, after, scanned);
      assert seeds + [] == seeds;
      WorkedThrough(c, scanner, maxCandidates, seeds, after, scanned);
    }

    /** ng_function_discover_from_game_config_limited, once the configuration has been
        turned into seeds. */
    method Discover(seeds: seq<Ask>, script: ScriptPass)
      returns (found: bool, ghost before: Table, ghost scanned: seq<bool>)
      requires Valid() && Contents() == Table([], false)
      modifies this`count, this`truncated, addrs, banks, entries, scanRoots
      ensures Valid()
      ensures found <==> Contents().items != []
      ensures found ==> Outcome(script, seeds, before, Contents(), scanned)
      ensures !found ==> Contents() == AddAll(c, maxCandidates, Table([], false), seeds)
      ensures !found ==> LeastTable(c, scanner, maxCandidates, seeds, Contents())
    {
      hide Working, LeastTable, AddAll, Scan, Zip, Extends, Outcome;
      scanned := seq(maxCandidates, _ => false);
      before := Contents();
      NothingYet(c, scanner, maxCandidates, scanned);
      MoreAsked(c, scanner, maxCandidates, [], Contents(), scanned, seeds);
      assert [] + seeds == seeds;
      AddList(seeds);
      found := count != 0;
      assert |Contents().items| == count;
      if found {
        before, scanned := ScanAll(script, seeds);
      } else {
        WorkedThrough(c, scanner, maxCandidates, seeds, Contents(), scanned);
      }
    }
  }

  lemma NeverShrinks(c: Cartridge, max: nat, t: Table, asks: seq<Ask>)
    ensures |t.items| <= |AddAll(c, max, t, asks).items|
    decreases |asks|
  {
    hide Find;
    if asks != [] {
      NeverShrinks(c, max, AddOne(c, max, t, asks[0]), asks[1..]);
    }
  }

  lemma FoundAgain(t: Table, i: nat, addr: u32, bank: u32, kind: Kind)
    requires i < |t.items| && Find(t.items, addr, bank) >= i && t.items[i].addr == addr && t.items[i].bank == bank
    ensures Find(t.items, addr, bank) == i
    ensures HasFact(t.(items := t.items[i := t.items[i].Promote(kind)]), Fact(addr, bank, kind))
  {
    hide Find;
    FindIs(t.items, addr, bank, i);
    FindIs(t.items[i := t.items[i].Promote(kind)], addr, bank, i);
  }

  lemma KeyMissing(t: Table, addr: u32, bank: u32, kind: Kind)
    requires Find(t.items, addr, bank) == |t.items|
    ensures !HasFact(t, Fact(addr, bank, kind))
  {
  }

  /** With no new key the loop ends, whatever the script pass promoted. */
  lemma PromotionsScanned(c: Cartridge, scanner: Scanner, max: nat, asked: seq<Ask>, before: Table, after: Table,
                          scanned: seq<bool>)
    requires Working(c, scanner, max, asked, before, scanned) && |before.items| <= max
    requires AllScanned(before, scanned) && Extends(before, after) && |after.items| == |before.items|
    ensures AllScanned(after, scanned) <==> !LosesPromotion(before, after)
  {
    hide Good, AllSatisfied, Within, Scan;
    forall i | 0 <= i < |after.items|
      ensures Raised(before.items[i], after.items[i]) && (scanned[i] ==> before.items[i].root)
    {
      assert scanned[i] ==> ScanDone(c, scanner, before, i);
    }
  }

  lemma FoundLast(t: Table, addr: u32, bank: u32, kind: Kind)
    requires Find(t.items, addr, bank) == |t.items|
    ensures HasFact(t.(items := t.items + [Item(addr, bank, false, false).Promote(kind)]), Fact(addr, bank, kind))
  {
    hide Find;
    FindIs(t.items + [Item(addr, bank, false, false).Promote(kind)], addr, bank, |t.items|);
  }

  lemma AddKeepsAll(c: Cartridge, scanner: Scanner, max: nat, asked: seq<Ask>, t: Table, scanned: seq<bool>,
                    asks: seq<Ask>)
    requires Working(c, scanner, max, asked, t, scanned)
    ensures Extends(t, AddAll(c, max, t, asks)) && |t.items| <= |AddAll(c, max, t, asks).items|
    ensures |t.items| <= max
  {
    hide Good, Extends, AddAll;
    AddAllKeeps(c, max, t, asks);
    NeverShrinks(c, max, t, asks);
    WithinLimit(t, max);
  }

  lemma AddNothing(c: Cartridge, max: nat, t: Table)
    ensures AddAll(c, max, t, []) == t
  {
  }

  /** The script pass turned a label into a scan root but added no new key, so the
      loop that would have scanned the root does not run again. */
  predicate LosesPromotion(before: Table, after: Table)
  {
    && |after.items| == |before.items|
    && exists i :: 0 <= i < |before.items| && after.items[i].root && !before.items[i].root
  }

  /** A script that names nothing but a label of the table loses the promotion. */
  lemma PromotionIsLost(c: Cartridge, max: nat, t: Table, j: nat, bank: u32)
    requires Good(t, max) && j < |t.items| && !t.items[j].root
    requires c.Probable(bank, t.items[j].addr) && c.BankFor(bank, t.items[j].addr) == t.items[j].bank
    ensures LosesPromotion(t, AddAll(c, max, t, [Ask(bank, t.items[j].addr, Entry)]))
  {
    hide Find;
    var item, ask := t.items[j], Ask(bank, t.items[j].addr, Entry);
    FindIs(t.items, item.addr, item.bank, j);
    assert [ask][1..] == [];
    assert AddAll(c, max, t, [ask]) == AddOne(c, max, t, ask);
    assert AddOne(c, max, t, ask).items[j].root;
  }

  // ---------------------------------------------------------------- runs of the discovery

  /** Two discoveries from the same seeds, in any order and with any repetition, under
      any limits they stay within, find the same functions with the same flags. */
  method DiscoverTwice(c: Cartridge, scanner: Scanner, limit1: nat, limit2: nat, seeds1: seq<Ask>, seeds2: seq<Ask>)
    returns (t1: Table, t2: Table)
    requires forall ask :: ask in seeds1 <==> ask in seeds2
    ensures !t1.truncated && !t2.truncated ==>
              && Facts(t1) == Facts(t2)
              && forall addr, bank ::
                   Find(t1.items, addr, bank) < |t1.items| <==> Find(t2.items, addr, bank) < |t2.items|
  {
    hide Facts, Find, LeastTable;
    ghost var max1, max2;
    t1, max1 := DiscoverPlain(c, scanner, limit1, seeds1);
    t2, max2 := DiscoverPlain(c, scanner, limit2, seeds2);
    if !t1.truncated && !t2.truncated {
      SeedOrderDoesNotMatter(c, scanner, max1, max2, seeds1, seeds2, t1, t2);
    }
  }

  /** A discovery without a script pass. */
  method DiscoverPlain(c: Cartridge, scanner: Scanner, limit: nat, seeds: seq<Ask>) returns (t: Table, ghost max: nat)
    ensures !t.truncated ==> LeastTable(c, scanner, max, seeds, t)
  {
    hide LeastTable, Working, Extends, AddAll, Zip;
    var candidates := new Candidates(c, scanner, limit);
    max := candidates.maxCandidates;
    ghost var before, scanned;
    var found;
    found, before, scanned := candidates.Discover(seeds, _ => []);
    t := candidates.Contents();
    if found && !t.truncated {
      candidates.WithoutInterpreter(_ => [], seeds, before, t, scanned);
    }
  }

  /** NOP; RTS. */
  function NopRts(addr: u32): Option<Instr> {
    if addr == 0 then Some(Instr(0, 2, Nop)) else if addr == 2 then Some(Instr(2, 2, Rts)) else None
  }

  function NopRtsCartridge(): Cartridge { Cartridge(_ => NopRts, _ => false, 0) }

  function PlainScanner(limit: nat): Scanner { Scanner(limit, (_, _, _) => ([], [])) }

  lemma ScanOfNopRts(limit: nat)
    requires limit >= 2
    ensures Scan(NopRtsCartridge(), PlainScanner(limit), 0, 0) == [Ask(0, 2, Label)]
  {
    hide Here;
    ScanFromRts(limit, limit - 1);
    HereIs(Instr(0, 2, Nop));
  }

  lemma ScanFromRts(limit: nat, left: nat)
    requires left > 0
    ensures ScanFrom(NopRtsCartridge(), PlainScanner(limit), 0, 0, 2, left) == [Ask(0, 2, Label)]
  {
    hide Here;
    HereIs(Instr(2, 2, Rts));
  }

  lemma HereIs(i: Instr)
    requires i.op.Nop? || i.op.Rts?
    ensures Here(([], []), 0, 0, i.addr, i) == LabelAsk(0, 0, i.addr)
  {
  }

  /** What the scan of NOP; RTS from 0 leads to: 0 as an entry, 2 as a label. */
  ghost function NopRtsFacts(): iset<Fact> {
    iset f: Fact | f.bank == NO_BANK && (f.addr == 0 || (f.addr == 2 && f.kind.Label?))
  }

  lemma NopRtsIsClosed(limit: nat)
    requires limit >= 2
    ensures Closed(NopRtsCartridge(), PlainScanner(limit), [Ask(0, 0, Entry)], NopRtsFacts())
  {
    hide Scan;
    ScanOfNopRts(limit);
  }

  /** The table the script pass is shown has the label 2 and never scanned it. */
  lemma NopRtsLabel(max: nat, limit: nat, t: Table) returns (j: nat)
    requires max > 2 && limit >= 2
    requires LeastTable(NopRtsCartridge(), PlainScanner(limit), max, [Ask(0, 0, Entry)], t)
    ensures j < |t.items| && t.items[j].addr == 2 && t.items[j].bank == NO_BANK && !t.items[j].root
  {
    hide Scan, Closed, Find;
    var c, scanner, seeds := NopRtsCartridge(), PlainScanner(limit), [Ask(0, 0, Entry)];
    NopRtsIsClosed(limit);
    assert Facts(t) <= NopRtsFacts();
    NotCutOff(t, max);
    ScanOfNopRts(limit);
    assert Fact(0, NO_BANK, Entry) in Facts(t) && Fact(2, NO_BANK, Label) in Facts(t) by {
      NopRtsReached(limit, Facts(t));
    }
    j := Find(t.items, 2, NO_BANK);
    NotARoot(t, 2, NO_BANK);
  }

  lemma NotARoot(t: Table, addr: u32, bank: u32)
    requires Fact(addr, bank, Label) in Facts(t) && Fact(addr, bank, Root) !in Facts(t)
    ensures !t.items[Find(t.items, addr, bank)].root
  {
  }

  lemma NopRtsReached(limit: nat, s: iset<Fact>)
    requires limit >= 2 && Closed(NopRtsCartridge(), PlainScanner(limit), [Ask(0, 0, Entry)], s)
    ensures Fact(0, NO_BANK, Entry) in s && Fact(2, NO_BANK, Label) in s
  {
    hide Scan;
    ScanOfNopRts(limit);
    assert FactOf(NopRtsCartridge(), [Ask(0, 0, Entry)][0]) in s;
    assert FactOf(NopRtsCartridge(), [Ask(0, 2, Label)][0]) in s;
  }

  lemma NotCutOff(t: Table, max: nat)
    requires Good(t, max) && max > 2 && Facts(t) <= NopRtsFacts()
    ensures !t.truncated
  {
    hide Find;
    forall j | 0 <= j < |t.items| ensures t.items[j].bank == NO_BANK && (t.items[j].addr == 0 || t.items[j].addr == 2) {
      var item := t.items[j];
      FindIs(t.items, item.addr, item.bank, j);
      assert Fact(item.addr, item.bank, Label) in Facts(t);
    }
    if |t.items| > 2 {
      var a, b, d := t.items[0].addr, t.items[1].addr, t.items[2].addr;
      assert a == b || a == d || b == d;
    }
  }

  /** Promotions do get lost: a discovery of NOP; RTS from the entry 0, with a script
      that names 2, ends with 2 a scan root that has not been scanned. */
  method LosePromotion(limit: nat) returns (t: Table, ghost scanned: seq<bool>)
    requires limit >= 2
    ensures |t.items| <= |scanned| && !AllScanned(t, scanned)
  {
    hide LeastTable, Working, Extends, AddAll, Zip, Scan;
    var c, scanner := NopRtsCartridge(), PlainScanner(limit);
    var candidates := new Candidates(c, scanner, 0);
    var script: ScriptPass := _ => [Ask(0, 2, Entry)];
    ghost var before;
    var found;
    found, before, scanned := candidates.Discover([Ask(0, 0, Entry)], script);
    t := candidates.Contents();
    ghost var max := candidates.maxCandidates;
    assert found by {
      if !found {
        var _ := NopRtsLabel(max, limit, t);
      }
    }
    ghost var j := NopRtsLabel(max, limit, before);
    assert Good(before, max) by { GoodOfLeast(c, scanner, max, [Ask(0, 0, Entry)], before); }
    PromotionIsLost(c, max, before, j, 0);
  }

  lemma GoodOfLeast(c: Cartridge, scanner: Scanner, max: nat, asked: seq<Ask>, t: Table)
    requires LeastTable(c, scanner, max, asked, t)
    ensures Good(t, max)
  {
  }

  /** How many slots are still unscanned. */
  function Remaining(scanned: seq<bool>): nat {
    if scanned == [] then 0 else (if scanned[0] then 0 else 1) + Remaining(scanned[1..])
  }

  lemma {:induction false} FewerRemain(scanned: seq<bool>, index: nat)
    requires index < |scanned| && !scanned[index]
    ensures Remaining(scanned[index := true]) < Remaining(scanned)
  {
    if index == 0 {
      assert scanned[index := true][1..] == scanned[1..];
    } else {
      assert scanned[index := true][1..] == scanned[1..][index - 1 := true];
      FewerRemain(scanned[1..], index - 1);
    }
  }
}
