/** The program ROM's address map, in C (recompiler/src/p_rom.c) with its table of at
    most 256 banks and 32-bit arithmetic, and in Python
    (scripts/mine_record_tables.py) with neither limit. */
module BankMap {
  import opened Machine

  const MAX_BANKS := 256

  /** A fixed region at the start of the ROM and a window onto banks of the rest. */
  datatype Map = Map(fixedBase: u32, fixedSize: u32, windowBase: u32, windowSize: u32, size: u32)
  {
    predicate Enabled() { fixedSize != 0 || windowSize != 0 }

    predicate IsFixed(addr: int) {
      0 <= addr - fixedBase < fixedSize && addr - fixedBase < size
    }

    predicate InWindow(addr: int) { 0 <= addr - windowBase < windowSize }

    /** Where bank i starts in the ROM. */
    function Offset(i: nat): nat { fixedSize + i * windowSize }

    /** The banks there really are. */
    function TrueCount(): nat {
      if windowSize == 0 || size <= fixedSize then 0 else (size - fixedSize + windowSize - 1) / windowSize
    }

    /** ng_program_rom_derived_bank_count: uint32_t arithmetic */
    function DerivedCount(): u32 {
      if windowSize == 0 || size <= fixedSize then 0 else Wrap32(size - fixedSize + windowSize - 1) / windowSize
    }

    function BankCount(): nat { if DerivedCount() > MAX_BANKS then MAX_BANKS else DerivedCount() }

    function BankSize(i: nat): nat
    {
      if Offset(i) >= size then 0 else if windowSize < size - Offset(i) then windowSize else size - Offset(i)
    }
  }

  // ---------------------------------------------------------------- the bank tables

  datatype Banks = Banks(count: nat, offsets: seq<u32>, sizes: seq<u32>, configured: seq<bool>)

  predicate Sized(b: Banks) {
    |b.offsets| == |b.sizes| == |b.configured| == MAX_BANKS
  }

  /** The tables ng_program_rom_set_address_map leaves. */
  predicate Derived(m: Map, b: Banks) {
    && Sized(b) && b.count == m.BankCount()
    && forall i :: 0 <= i < MAX_BANKS ==>
         (b.configured[i] <==> i < b.count && m.Offset(i) < m.size)
         && (b.configured[i] ==> b.offsets[i] == m.Offset(i) && b.sizes[i] == m.BankSize(i))
  }

  /** ng_program_rom_translate_addr */
  function Translate(m: Map, b: Banks, active: u32, addr: u32): (r: Option<u32>)
    requires Sized(b)
    ensures r.Some? ==> r.value < m.size
  {
    if !m.Enabled() then (if addr >= m.size then None else Some(addr))
    else if m.fixedSize != 0 && addr >= m.fixedBase && addr - m.fixedBase < m.fixedSize && addr - m.fixedBase < m.size
    then Some(addr - m.fixedBase)
    else if m.windowSize != 0 && addr >= m.windowBase && addr - m.windowBase < m.windowSize then
      var rel := addr - m.windowBase;
      if active >= b.count || active >= MAX_BANKS || !b.configured[active] || rel >= b.sizes[active] then None
      else
        var offset: int := b.offsets[active];
        if offset + rel < m.size then Some(offset + rel) else None
    else None
  }

  /** AddressMap.translate, on Python's integers */
  function PyTranslate(m: Map, bank: int, addr: int): (r: Option<int>) {
    if !m.Enabled() then (if 0 <= addr < m.size then Some(addr) else None)
    else if m.IsFixed(addr) then Some(addr - m.fixedBase)
    else if m.windowSize > 0 && m.InWindow(addr) then
      var rel := addr - m.windowBase;
      if bank < 0 || bank >= m.TrueCount() || rel >= m.BankSize(bank) then None
      else if m.Offset(bank) + rel < m.size then Some(m.Offset(bank) + rel) else None
    else None
  }

  // ---------------------------------------------------------------- counting banks

  /** Bank i exists exactly when it starts inside the ROM. */
  lemma BankExists(m: Map, i: nat)
    requires m.windowSize > 0
    ensures i < m.TrueCount() <==> m.Offset(i) < m.size
  {
    if m.size > m.fixedSize {
      CeilingIsCount(m.size - m.fixedSize, m.windowSize, i);
    } else {
      assert m.Offset(i) >= m.fixedSize;
    }
  }

  lemma CeilingIsCount(s: nat, w: nat, i: nat)
    requires s > 0 && w > 0
    ensures i < (s + w - 1) / w <==> i * w < s
  {
    var n := (s + w - 1) / w;
    QuotientBounds(s + w - 1, w, n);
    if i < n {
      Factors(i + 1, n, w);
      assert (i + 1) * w == i * w + w;
    } else {
      Factors(n, i, w);
    }
  }

  lemma QuotientBounds(s: nat, w: nat, n: nat)
    requires w > 0 && n == s / w
    ensures n * w <= s < n * w + w
  {
    assert s == w * n + s % w;
  }

  lemma Factors(i: nat, n: nat, w: nat)
    requires i <= n
    ensures i * w <= n * w
  {
    assert (n - i) * w >= 0;
  }

  /** The C count is right, or is zero because the sum wrapped. */
  lemma CountWraps(m: Map)
    ensures m.DerivedCount() == if m.windowSize != 0 && m.size > m.fixedSize
                                   && m.size - m.fixedSize + m.windowSize - 1 >= 0x1_0000_0000
                                then 0 else m.TrueCount()
  {
    var total := m.size - m.fixedSize + m.windowSize - 1;
    if m.windowSize != 0 && m.size > m.fixedSize && total >= 0x1_0000_0000 {
      Euclid(total, 0x1_0000_0000, 1, total - 0x1_0000_0000);
      Euclid(total - 0x1_0000_0000, m.windowSize, 0, total - 0x1_0000_0000);
    }
  }

  /** Every bank has a slot in the C tables. */
  predicate AllBanksFit(m: Map) { m.BankCount() == m.TrueCount() }

  lemma WhenBanksFit(m: Map)
    ensures m.BankCount() <= m.TrueCount()
    ensures var wraps := m.size - m.fixedSize + m.windowSize - 1 >= 0x1_0000_0000;
            AllBanksFit(m) <==> (m.TrueCount() <= MAX_BANKS && (m.TrueCount() > 0 ==> !wraps))
  {
    CountWraps(m);
    if m.windowSize > 0 {
      BankExists(m, 0);
    }
  }

  /** Slot k of the tables is the bank the map derives. */
  predicate BankIs(m: Map, k: nat, offset: u32, size: u32, configured: bool) {
    && configured && m.Offset(k) < m.size && offset == m.Offset(k) && size == m.BankSize(k)
    && offset + size <= m.size && size <= m.windowSize
  }

  // ---------------------------------------------------------------- the two implementations agree

  lemma SameTranslation(m: Map, b: Banks, active: u32, addr: u32)
    requires Derived(m, b) && AllBanksFit(m)
    ensures Translate(m, b, active, addr) == PyTranslate(m, active, addr)
  {
    if m.windowSize > 0 {
      BankExists(m, active);
    }
    assert active < MAX_BANKS ==> (b.configured[active] <==> active < b.count && m.Offset(active) < m.size);
  }

  /** The two agree on every address and bank exactly when every bank fits the tables:
      at most 256 of them, and a sum that does not wrap.  The window's first address
      must not be hidden behind the fixed region. */
  lemma ImplementationsAgreeIff(m: Map, b: Banks)
    requires Derived(m, b) && !m.IsFixed(m.windowBase)
    ensures (forall active: u32, addr: u32 :: Translate(m, b, active, addr) == PyTranslate(m, active, addr))
            <==> AllBanksFit(m)
  {
    if AllBanksFit(m) {
      forall active: u32, addr: u32 ensures Translate(m, b, active, addr) == PyTranslate(m, active, addr) {
        SameTranslation(m, b, active, addr);
      }
    } else {
      WhenBanksFit(m);
      MissingBank(m, b, m.BankCount());
    }
  }

  lemma MissingBank(m: Map, b: Banks, bank: u32)
    requires Derived(m, b) && !m.IsFixed(m.windowBase) && b.count <= bank < m.TrueCount()
    ensures Translate(m, b, bank, m.windowBase).None? && PyTranslate(m, bank, m.windowBase).Some?
  {
    BankExists(m, bank);
  }

  // ---------------------------------------------------------------- one address for each byte

  /** Both regions lie in the 32-bit address space and do not meet. */
  predicate Disjoint(m: Map) {
    && m.fixedBase + m.fixedSize <= 0x1_0000_0000 && m.windowBase + m.windowSize <= 0x1_0000_0000
    && (m.fixedBase + m.fixedSize <= m.windowBase || m.windowBase + m.windowSize <= m.fixedBase)
  }

  lemma Parts(o: nat, w: nat)
    requires w > 0
    ensures o == o / w * w + o % w && 0 <= o % w < w
  {
  }

  lemma SameParts(i: nat, r: nat, j: nat, q: nat, w: nat)
    requires r < w && q < w && i * w + r == j * w + q
    ensures i == j && r == q
  {
    var e := i - j;
    assert e * w == q - r;
    assert -1 < e < 1;
  }

  lemma BankedOffset(m: Map, b: Banks, active: u32, addr: u32)
    requires Derived(m, b) && Disjoint(m) && m.windowSize > 0 && m.InWindow(addr)
    ensures var r, rel := Translate(m, b, active, addr), addr - m.windowBase;
            r == if active < b.count && rel < m.BankSize(active) then Some(m.Offset(active) + rel) else None
  {
    assert active < MAX_BANKS ==> (b.configured[active] <==> active < b.count && m.Offset(active) < m.size);
  }

  /** A byte of the fixed region is reached at one address, whatever bank is active,
      and through no bank. */
  lemma FixedByteReachedOnce(m: Map, b: Banks, o: u32, active: u32, addr: u32)
    requires Derived(m, b) && Disjoint(m) && m.windowSize > 0 && o < m.size && o < m.fixedSize
    ensures Translate(m, b, active, addr) == Some(o) <==> addr == m.fixedBase + o
  {
    if m.InWindow(addr) {
      BankedOffset(m, b, active, addr);
    }
  }

  /** Every other byte lies in one bank, at one place within its window. */
  lemma ByteHasBank(m: Map, o: u32) returns (bank: nat, rel: nat)
    requires m.windowSize > 0 && m.fixedSize <= o < m.size
    ensures bank < m.TrueCount() && m.Offset(bank) + rel == o && rel < m.BankSize(bank) && rel < m.windowSize
  {
    bank, rel := (o - m.fixedSize) / m.windowSize, (o - m.fixedSize) % m.windowSize;
    Parts(o - m.fixedSize, m.windowSize);
    BankExists(m, bank);
  }

  /** Such a byte is reached at one address through one bank. */
  lemma BankedByteReachedOnce(m: Map, b: Banks, o: u32, bank: nat, rel: nat, active: u32, addr: u32)
    requires Derived(m, b) && Disjoint(m) && m.windowSize > 0 && AllBanksFit(m)
    requires m.fixedSize <= o < m.size && m.Offset(bank) + rel == o && rel < m.windowSize
    ensures Translate(m, b, active, addr) == Some(o) <==> active == bank && addr == m.windowBase + rel
  {
    hide Map.Offset, Map.BankSize, Translate, Map.BankCount, Map.TrueCount;
    BankReaches(m, bank, rel);
    if m.InWindow(addr) {
      BankedOffset(m, b, active, addr);
      OnlyBank(m, o, bank, rel, active, addr - m.windowBase);
    } else {
      NotBanked(m, b, o, active, addr);
    }
  }

  lemma BankReaches(m: Map, bank: nat, rel: nat)
    requires m.windowSize > 0 && rel < m.windowSize && m.Offset(bank) + rel < m.size
    ensures bank < m.TrueCount() && rel < m.BankSize(bank)
  {
    hide Map.Offset, Map.TrueCount;
    BankExists(m, bank);
  }

  lemma OnlyBank(m: Map, o: u32, bank: nat, rel: nat, other: nat, r: nat)
    requires m.Offset(bank) + rel == o && rel < m.windowSize && r < m.windowSize
    ensures m.Offset(other) + r == o <==> other == bank && r == rel
  {
    if m.Offset(other) + r == o {
      SameParts(other, r, bank, rel, m.windowSize);
    }
  }

  lemma NotBanked(m: Map, b: Banks, o: u32, active: u32, addr: u32)
    requires Derived(m, b) && m.windowSize > 0 && m.fixedSize <= o && !m.InWindow(addr)
    ensures Translate(m, b, active, addr) != Some(o)
  {
    hide Map.Offset, Map.BankSize;
  }

  // ---------------------------------------------------------------- the structure

  /** NgProgramRom */
  class ProgramRom {
    var data: seq<u8>
    var map_: Map
    var activeBank: u32
    var bankCount: nat
    const bankOffsets: array<u32>
    const bankSizes: array<u32>
    const bankConfigured: array<bool>

    constructor (data: seq<u8>)
      requires |data| < 0x1_0000_0000
      ensures Valid() && this.data == data && !map_.Enabled()
      ensures fresh(bankOffsets) && fresh(bankSizes) && fresh(bankConfigured)
    {
      this.data, map_, activeBank, bankCount := data, Map(0, 0, 0, 0, |data|), 0, 0;
      bankOffsets := new u32[MAX_BANKS](_ => 0);
      bankSizes := new u32[MAX_BANKS](_ => 0);
      bankConfigured := new bool[MAX_BANKS](_ => false);
    }

    /** A configured bank lies inside the ROM and fits the window. */
    ghost predicate Valid()
      reads this, bankOffsets, bankSizes, bankConfigured
    {
      && map_.size == |data| && bankOffsets != bankSizes
      && bankOffsets.Length == bankSizes.Length == bankConfigured.Length == MAX_BANKS
      && forall i {:trigger bankConfigured[i]} :: 0 <= i < MAX_BANKS && bankConfigured[i] ==>
           bankOffsets[i] + bankSizes[i] <= |data| && bankSizes[i] <= map_.windowSize
    }

    ghost function Tables(): Banks
      reads this, bankOffsets, bankSizes, bankConfigured
    {
      Banks(bankCount, bankOffsets[..], bankSizes[..], bankConfigured[..])
    }

    /** ng_program_rom_set_address_map */
    method SetAddressMap(fixedBase: u32, fixedSize: u32, windowBase: u32, windowSize: u32)
      requires Valid()
      modifies this`map_, this`activeBank, this`bankCount, bankOffsets, bankSizes, bankConfigured
      ensures Valid() && activeBank == 0
      ensures map_ == Map(fixedBase, fixedSize, windowBase, windowSize, |data|)
      ensures Derived(map_, Tables())
    {
      hide Map.Offset, Map.BankSize, Map.BankCount;
      var m := Map(fixedBase, fixedSize, windowBase, windowSize, |data|);
      assert m.BankCount() <= MAX_BANKS by { AtMost256(m); }
      map_, activeBank, bankCount := m, 0, m.BankCount();
      for i := 0 to MAX_BANKS
        invariant map_ == m && bankCount == m.BankCount() && activeBank == 0
        invariant forall k :: 0 <= k < i ==> !bankConfigured[k]
      {
        bankOffsets[i], bankSizes[i], bankConfigured[i] := 0, 0, false;
      }
      for i := 0 to bankCount
        invariant map_ == m && bankCount == m.BankCount() <= MAX_BANKS && activeBank == 0
        invariant forall k :: i <= k < MAX_BANKS ==> !bankConfigured[k]
        invariant forall k :: 0 <= k < i ==> BankIs(m, k, bankOffsets[k], bankSizes[k], bankConfigured[k])
      {
        var offset := m.Offset(i);
        if offset >= m.size {
          LaterBanksOutside(m, i);
          break;
        }
        BankInside(m, i);
        bankOffsets[i], bankSizes[i], bankConfigured[i] := offset, m.BankSize(i), true;
      }
    }

    /** ng_program_rom_configure_bank */
    method ConfigureBank(bank: u32, offset: u32, size: u32) returns (ok: bool)
      requires Valid()
      modifies this`bankCount, bankOffsets, bankSizes, bankConfigured
      ensures Valid()
      ensures ok <==> map_.Enabled() && map_.windowSize != 0 && bank < MAX_BANKS && 0 < size <= map_.windowSize
                      && offset < |data| && offset + size <= |data|
      ensures if ok then
                Tables() == old(Tables()).(count := if old(bankCount) <= bank then bank + 1 else old(bankCount),
                                           offsets := old(bankOffsets[..])[bank := offset],
                                           sizes := old(bankSizes[..])[bank := size],
                                           configured := old(bankConfigured[..])[bank := true])
              else Tables() == old(Tables())
    {
      if !map_.Enabled() || map_.windowSize == 0 || bank >= MAX_BANKS || size == 0 || size > map_.windowSize
         || offset >= |data| || offset + size > |data| {
        return false;
      }
      bankOffsets[bank], bankSizes[bank], bankConfigured[bank] := offset, size, true;
      if bankCount <= bank {
        bankCount := bank + 1;
      }
      ok := true;
    }

    /** ng_program_rom_select_bank */
    method SelectBank(bank: u32)
      modifies this`activeBank
      ensures activeBank == bank
    {
      activeBank := bank;
    }

    method TranslateAddr(addr: u32) returns (r: Option<u32>)
      requires Valid()
      ensures r == Translate(map_, Tables(), activeBank, addr)
    {
      if !map_.Enabled() {
        return if addr >= map_.size then None else Some(addr);
      }
      if map_.fixedSize != 0 && addr >= map_.fixedBase {
        var rel := addr - map_.fixedBase;
        if rel < map_.fixedSize && rel < map_.size {
          return Some(rel);
        }
      }
      if map_.windowSize != 0 && addr >= map_.windowBase {
        var rel := addr - map_.windowBase;
        if rel < map_.windowSize {
          if activeBank >= bankCount || activeBank >= MAX_BANKS || !bankConfigured[activeBank]
              || rel >= bankSizes[activeBank] {
            return None;
          }
          var offset: int := bankOffsets[activeBank];
          if offset + rel < map_.size {
            return Some(offset + rel);
          }
        }
      }
      return None;
    }

    /** ng_program_rom_read8: an unmapped address reads as 0xFF. */
    method Read8(addr: u32) returns (v: u8)
      requires Valid()
      ensures var r := Translate(map_, Tables(), activeBank, addr);
              v == if r.Some? then data[r.value] else 0xFF
    {
      var r := TranslateAddr(addr);
      v := if r.Some? then data[r.value] else 0xFF;
    }
  }

  lemma AtMost256(m: Map)
    ensures m.BankCount() <= MAX_BANKS
  {
  }

  lemma BankInside(m: Map, i: nat)
    requires m.Offset(i) < m.size
    ensures m.Offset(i) + m.BankSize(i) <= m.size && m.BankSize(i) <= m.windowSize
  {
    hide Map.Offset;
  }

  lemma LaterBanksOutside(m: Map, i: nat)
    requires m.Offset(i) >= m.size
    ensures forall k :: i <= k ==> m.Offset(k) >= m.size
  {
    forall k | i <= k ensures m.Offset(k) >= m.size {
      assert (k - i) * m.windowSize >= 0;
    }
  }
}
