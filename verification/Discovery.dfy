/** Function discovery (recompiler/src/function_discovery.c): the table of candidate
    functions, one scan from a root, and what a list of additions does to the table.
    Decoding, bank views and the game-specific heuristics are parameters. */
module Discovery {
  import opened Machine
  import opened Isa

  const NO_BANK: u32 := 0xFFFF_FFFF

  /** The program ROM: decode-and-validate with a bank selected, which addresses lie
      in the bank window of a ROM of several banks, and the bank selected at first. */
  datatype Cartridge = Cartridge(view: u32 -> Rom, banked: u32 -> bool, active: u32)
  {
    /** is_probable_function_target */
    predicate Probable(bank: u32, addr: u32) {
      addr % 2 == 0 && IsCode(bank, addr)
    }

    predicate IsCode(bank: u32, addr: u32) {
      view(bank)(addr).Some? && !view(bank)(addr).value.op.Unsupported?
    }

    /** discovery_bank_for_addr */
    function BankFor(bank: u32, addr: u32): u32 { if banked(addr) then bank else NO_BANK }

    /** discovery_entry_rom_view: the bank a table entry is scanned through. */
    function ViewOf(bank: u32): u32 { if bank != NO_BANK then bank else active }
  }

  /** A scan reads at most `limit` instructions (NG_FUNCTION_DISCOVERY_MAX_INSTRUCTIONS,
      128; any limit will do here).  `hint` is what the heuristics add, given the bank,
      the root and how many instructions are left: before the instruction's own
      targets, and after them. */
  datatype Scanner = Scanner(limit: nat, hint: (u32, u32, nat) -> (seq<u32>, seq<u32>))

  // ---------------------------------------------------------------- the table

  /** add_label, add_scan_root and add: neither flag, the scan flag, both flags. */
  datatype Kind = Label | Root | Entry

  datatype Ask = Ask(bank: u32, addr: u32, kind: Kind)

  datatype Item = Item(addr: u32, bank: u32, entry: bool, root: bool)
  {
    function Promote(kind: Kind): Item {
      this.(entry := entry || kind.Entry?, root := root || !kind.Label?)
    }
  }

  datatype Table = Table(items: seq<Item>, truncated: bool)

  function Find(items: seq<Item>, addr: u32, bank: u32): (j: nat)
    ensures j <= |items|
    ensures j < |items| ==> items[j].addr == addr && items[j].bank == bank
    ensures forall k :: 0 <= k < j ==> items[k].addr != addr || items[k].bank != bank
  {
    if items == [] || (items[0].addr == addr && items[0].bank == bank) then 0 else 1 + Find(items[1..], addr, bank)
  }

  predicate HasKey(item: Item, addr: u32, bank: u32) { item.addr == addr && item.bank == bank }

  lemma FindIs(items: seq<Item>, addr: u32, bank: u32, j: nat)
    requires j < |items| && HasKey(items[j], addr, bank)
    requires forall k :: 0 <= k < j ==> !HasKey(items[k], addr, bank)
    ensures Find(items, addr, bank) == j
  {
    var j1 := Find(items, addr, bank);
    assert j1 <= j;
    assert HasKey(items[j1], addr, bank);
  }

  /** ng_function_discovery_add_with_flags */
  function AddOne(c: Cartridge, max: nat, t: Table, ask: Ask): Table {
    if !c.Probable(ask.bank, ask.addr) then t
    else
      var bank := c.BankFor(ask.bank, ask.addr);
      var j := Find(t.items, ask.addr, bank);
      if j < |t.items| then t.(items := t.items[j := t.items[j].Promote(ask.kind)])
      else if |t.items| >= max then t.(truncated := true)
      else t.(items := t.items + [Item(ask.addr, bank, false, false).Promote(ask.kind)])
  }

  function AddAll(c: Cartridge, max: nat, t: Table, asks: seq<Ask>): Table
    decreases |asks|
  {
    if asks == [] then t else AddAll(c, max, AddOne(c, max, t, asks[0]), asks[1..])
  }

  lemma {:induction false} AddAllAppend(c: Cartridge, max: nat, t: Table, xs: seq<Ask>, ys: seq<Ask>)
    ensures AddAll(c, max, t, xs + ys) == AddAll(c, max, AddAll(c, max, t, xs), ys)
    decreases |xs|
  {
    hide AddOne;
    if xs == [] {
      assert xs + ys == ys;
    } else {
      assert (xs + ys)[1..] == xs[1..] + ys;
      AddAllAppend(c, max, AddOne(c, max, t, xs[0]), xs[1..], ys);
    }
  }

  // ---------------------------------------------------------------- one scan

  /** is_direct_function_target or is_branch_target_candidate, and instr.target */
  function StaticTarget(op: Op): Option<u32> {
    match op
    case Bsr(target) => Some(target)
    case Jsr(src) => if src.Abs? || src.PcDisp? then Some(src.addr) else None
    case Jmp(src) => if src.Abs? || src.PcDisp? then Some(src.addr) else None
    case Bra(target) => Some(target)
    case Bcc(_, target) => Some(target)
    case DBcc(condition, _, target) => if condition != 0 then Some(target) else None
    case _ => None
  }

  predicate IsDirect(op: Op) { (op.Bsr? || op.Jsr? || op.Jmp?) && StaticTarget(op).Some? }

  predicate StopsScan(op: Op) { op.Bra? || op.Jmp? || op.Rts? || op.Rte? || op.Rtr? }

  /** Instructions after which the next address is an entry of its own. */
  predicate Returns(op: Op) { op.Jsr? || op.Bsr? || op.Stop? }

  function Entries(bank: u32, targets: seq<u32>): (r: seq<Ask>)
    ensures |r| == |targets| && forall i :: 0 <= i < |r| ==> r[i] == Ask(bank, targets[i], Entry)
  {
    if targets == [] then [] else [Ask(bank, targets[0], Entry)] + Entries(bank, targets[1..])
  }

  function LabelAsk(bank: u32, start: u32, pc: u32): seq<Ask> {
    if pc != start then [Ask(bank, pc, Label)] else []
  }

  function TargetAsk(bank: u32, op: Op): seq<Ask> {
    if StaticTarget(op).Some? then [Ask(bank, StaticTarget(op).value, Entry)] else []
  }

  function ReturnAsk(bank: u32, pc: u32, i: Instr): seq<Ask> {
    if Returns(i.op) then [Ask(bank, Wrap32(pc + i.len), Entry)] else []
  }

  /** What scanning adds for the instruction at pc. */
  function Here(hints: (seq<u32>, seq<u32>), bank: u32, start: u32, pc: u32, i: Instr): seq<Ask> {
    LabelAsk(bank, start, pc)
    + (Entries(bank, hints.0) + (TargetAsk(bank, i.op) + (Entries(bank, hints.1) + ReturnAsk(bank, pc, i))))
  }

  /** scan_function_candidate with `left` instructions still to go. */
  function ScanFrom(c: Cartridge, scanner: Scanner, bank: u32, start: u32, pc: u32, left: nat): seq<Ask>
    decreases left
  {
    if left == 0 then (if pc != start then [Ask(bank, pc, Root)] else [])
    else if !c.IsCode(bank, pc) then []
    else
      var ins := c.view(bank)(pc).value;
      Here(scanner.hint(bank, start, left), bank, start, pc, ins)
      + if StopsScan(ins.op) then [] else ScanFrom(c, scanner, bank, start, Wrap32(pc + ins.len), left - 1)
  }

  function Scan(c: Cartridge, scanner: Scanner, bank: u32, start: u32): seq<Ask> {
    ScanFrom(c, scanner, bank, start, start, scanner.limit)
  }

  // ---------------------------------------------------------------- facts about a table

  /** A key of the table, with the flags of a kind or more. */
  datatype Fact = Fact(addr: u32, bank: u32, kind: Kind)

  function FactOf(c: Cartridge, ask: Ask): Fact {
    Fact(ask.addr, c.BankFor(ask.bank, ask.addr), ask.kind)
  }

  predicate HasFact(t: Table, f: Fact) {
    var j := Find(t.items, f.addr, f.bank);
    j < |t.items| && t.items[j].Promote(f.kind) == t.items[j]
  }

  ghost function Facts(t: Table): iset<Fact> { iset f: Fact | HasFact(t, f) }

  /** An addition has had its effect: it was refused as not code, or it is there. */
  predicate Satisfied(c: Cartridge, t: Table, ask: Ask) {
    c.Probable(ask.bank, ask.addr) ==> HasFact(t, FactOf(c, ask))
  }

  predicate AllSatisfied(c: Cartridge, t: Table, asks: seq<Ask>) {
    forall k :: 0 <= k < |asks| ==> Satisfied(c, t, asks[k])
  }

  /** Keys are unique, the table is within its limit and cut off only when full, every
      entry is a scan root. */
  predicate Good(t: Table, max: nat) {
    && |t.items| <= max && (t.truncated ==> |t.items| == max)
    && (forall i, j :: 0 <= i < j < |t.items| ==>
          t.items[i].addr != t.items[j].addr || t.items[i].bank != t.items[j].bank)
    && (forall i :: 0 <= i < |t.items| ==> t.items[i].entry ==> t.items[i].root)
  }

  /** Nothing is removed or moved, and no flag is cleared. */
  predicate Extends(t: Table, t1: Table) {
    && |t.items| <= |t1.items| && (t.truncated ==> t1.truncated)
    && forall i :: 0 <= i < |t.items| ==> Raised(t.items[i], t1.items[i])
  }

  predicate Raised(x: Item, y: Item) {
    x.addr == y.addr && x.bank == y.bank && (x.entry ==> y.entry) && (x.root ==> y.root)
  }

  lemma ExtendsTransitive(t: Table, t1: Table, t2: Table)
    requires Extends(t, t1) && Extends(t1, t2)
    ensures Extends(t, t2)
  {
    forall i | 0 <= i < |t.items| ensures Raised(t.items[i], t2.items[i]) {
      assert Raised(t.items[i], t1.items[i]) && Raised(t1.items[i], t2.items[i]);
    }
  }

  lemma FactStays(t: Table, t1: Table, f: Fact)
    requires Extends(t, t1) && HasFact(t, f)
    ensures HasFact(t1, f)
  {
    hide Find;
    var j := Find(t.items, f.addr, f.bank);
    assert Raised(t.items[j], t1.items[j]);
    forall k | 0 <= k < j ensures !HasKey(t1.items[k], f.addr, f.bank) {
      assert Raised(t.items[k], t1.items[k]);
    }
    FindIs(t1.items, f.addr, f.bank, j);
  }

  lemma SatisfiedStays(c: Cartridge, t: Table, t1: Table, asks: seq<Ask>)
    requires Extends(t, t1) && AllSatisfied(c, t, asks)
    ensures AllSatisfied(c, t1, asks)
  {
    hide HasFact, Extends, FactOf;
    forall k | 0 <= k < |asks| ensures Satisfied(c, t1, asks[k]) {
      assert Satisfied(c, t, asks[k]);
      if c.Probable(asks[k].bank, asks[k].addr) {
        FactStays(t, t1, FactOf(c, asks[k]));
      }
    }
  }

  lemma AddKeeps(c: Cartridge, max: nat, t: Table, ask: Ask)
    requires Good(t, max)
    ensures var t1 := AddOne(c, max, t, ask);
            Good(t1, max) && Extends(t, t1) && (!t1.truncated ==> Satisfied(c, t1, ask))
  {
    hide Find;
    var t1 := AddOne(c, max, t, ask);
    var bank := c.BankFor(ask.bank, ask.addr);
    var j := Find(t.items, ask.addr, bank);
    if c.Probable(ask.bank, ask.addr) && !t1.truncated && (j < |t.items| || |t.items| < max) {
      assert forall k :: 0 <= k < j ==> t1.items[k] == t.items[k];
      FindIs(t1.items, ask.addr, bank, j);
    }
  }

  lemma {:induction false} AddAllKeeps(c: Cartridge, max: nat, t: Table, asks: seq<Ask>)
    requires Good(t, max)
    ensures var t1 := AddAll(c, max, t, asks);
            Good(t1, max) && Extends(t, t1) && (!t1.truncated ==> AllSatisfied(c, t1, asks))
    decreases |asks|
  {
    hide AddOne, Good, Satisfied, HasFact;
    if asks == [] {
    } else {
      var t1 := AddOne(c, max, t, asks[0]);
      AddKeeps(c, max, t, asks[0]);
      AddAllKeeps(c, max, t1, asks[1..]);
      var t2 := AddAll(c, max, t, asks);
      ExtendsTransitive(t, t1, t2);
      if !t2.truncated {
        assert AllSatisfied(c, t1, [asks[0]]);
        SatisfiedStays(c, t1, t2, [asks[0]]);
        assert Satisfied(c, t2, [asks[0]][0]);
        forall k | 0 <= k < |asks| ensures Satisfied(c, t2, asks[k]) {
          assert k > 0 ==> asks[k] == asks[1..][k - 1];
        }
      }
    }
  }

  // ---------------------------------------------------------------- closed sets of facts

  /** A fact about more flags brings the facts about fewer. */
  ghost predicate Downward(s: iset<Fact>) {
    forall a: u32, b: u32 ::
      && (Fact(a, b, Entry) in s ==> Fact(a, b, Root) in s)
      && (Fact(a, b, Root) in s ==> Fact(a, b, Label) in s)
  }

  ghost predicate Includes(c: Cartridge, s: iset<Fact>, asks: seq<Ask>) {
    forall k :: 0 <= k < |asks| ==> c.Probable(asks[k].bank, asks[k].addr) ==> FactOf(c, asks[k]) in s
  }

  /** A set of facts that the seeds and the scan of each of its roots add nothing to. */
  ghost predicate Closed(c: Cartridge, scanner: Scanner, seeds: seq<Ask>, s: iset<Fact>) {
    && Downward(s) && Includes(c, s, seeds)
    && forall a: u32, b: u32 :: Fact(a, b, Root) in s ==> Includes(c, s, Scan(c, scanner, c.ViewOf(b), a))
  }

  lemma AddWithin(c: Cartridge, max: nat, t: Table, ask: Ask, s: iset<Fact>)
    requires Good(t, max) && Facts(t) <= s && Downward(s) && Includes(c, s, [ask])
    ensures Facts(AddOne(c, max, t, ask)) <= s
  {
    var t1 := AddOne(c, max, t, ask);
    if c.Probable(ask.bank, ask.addr) {
      assert FactOf(c, [ask][0]) in s;
      forall f: Fact | HasFact(t1, f) ensures f in s {
        FactOfAdded(c, max, t, ask, f);
        var g := FactOf(c, ask);
        assert Fact(g.addr, g.bank, Root) in s || g.kind.Label?;
        assert HasFact(t, f) ==> f in Facts(t);
      }
    }
  }

  /** The facts an addition brings are those of its own key and kind. */
  lemma FactOfAdded(c: Cartridge, max: nat, t: Table, ask: Ask, f: Fact)
    requires Good(t, max) && c.Probable(ask.bank, ask.addr) && HasFact(AddOne(c, max, t, ask), f)
    ensures var g := FactOf(c, ask);
            HasFact(t, f)
            || (f.addr == g.addr && f.bank == g.bank
                && (f.kind == g.kind || f.kind.Label? || (f.kind.Root? && g.kind.Entry?)))
  {
    hide Find;
    var t1, g := AddOne(c, max, t, ask), FactOf(c, ask);
    var j, j1 := Find(t.items, g.addr, g.bank), Find(t1.items, f.addr, f.bank);
    if t1.items != t.items {
      if f.addr == g.addr && f.bank == g.bank {
        assert forall k :: 0 <= k < j ==> t1.items[k] == t.items[k];
        FindIs(t1.items, f.addr, f.bank, j);
      } else {
        assert t1.items[j1].addr == f.addr && t1.items[j1].bank == f.bank;
        assert forall k :: 0 <= k < |t.items| && k != j ==> t1.items[k] == t.items[k];
        assert forall k :: 0 <= k < |t.items| ==>
                 t1.items[k].addr == t.items[k].addr && t1.items[k].bank == t.items[k].bank;
        FindIs(t.items, f.addr, f.bank, j1);
      }
    }
  }

  lemma {:induction false} AddAllWithin(c: Cartridge, max: nat, t: Table, asks: seq<Ask>, s: iset<Fact>)
    requires Good(t, max) && Facts(t) <= s && Downward(s) && Includes(c, s, asks)
    ensures Facts(AddAll(c, max, t, asks)) <= s
    decreases |asks|
  {
    hide AddOne, Facts, Downward, Good;
    if asks != [] {
      AddKeeps(c, max, t, asks[0]);
      AddWithin(c, max, t, asks[0], s);
      forall k | 0 <= k < |asks[1..]| && c.Probable(asks[1..][k].bank, asks[1..][k].addr)
        ensures FactOf(c, asks[1..][k]) in s
      {
        assert asks[1..][k] == asks[k + 1];
      }
      AddAllWithin(c, max, AddOne(c, max, t, asks[0]), asks[1..], s);
    }
  }
}
