/** The Wirth-style symbol table (src/semantic/symbol_table.py): three growing tables of
    identifiers, arrays and blocks, a ten-slot display from lexical level to block, and
    per-block `link` chains in which index 0 ends a chain. */
module SymbolTables {
  import opened Wrappers
  import opened Types
  import opened Errors

  datatype ObjectKind = CONSTANT | VARIABLE | TYPE | PROCEDURE | FUNCTION | PROGRAM | FIELD

  /** One identifier. `link` is the previous entry of the same chain, 0 at its end. */
  datatype SymbolEntry = SymbolEntry(
    name: string, kind: ObjectKind, entryType: Type, level: int, address: int,
    ref: int, normal: bool, link: nat)

  /** One array type, with its size in storage units. */
  datatype ArrayEntry = ArrayEntry(indexType: Type, elementType: Type, low: int, high: int, elementSize: int, size: int)

  /** One block: its newest entry, and its parameter and variable sizes. */
  datatype BlockEntry = BlockEntry(last: nat, lpar: int, psze: int, vsze: int)

  const DisplaySize: nat := 10

  const EmptyBlock := BlockEntry(0, 0, 0, 0)

  // ---------------------------------------------------------------------------
  // Link chains, on table values

  /** Every link points to an earlier entry or ends the chain. */
  predicate Descending(tab: seq<SymbolEntry>) {
    forall i :: 0 <= i < |tab| ==> tab[i].link == 0 || tab[i].link < i
  }

  /** Links descend, a variable links only to a variable and a field only to a variable
      or a field. */
  predicate WellLinked(tab: seq<SymbolEntry>) {
    Descending(tab)
    && forall i :: 0 <= i < |tab| ==>
      (tab[i].link != 0 && tab[i].kind == VARIABLE ==> tab[tab[i].link].kind == VARIABLE)
      && (tab[i].link != 0 && tab[i].kind == FIELD ==> tab[tab[i].link].kind in {VARIABLE, FIELD})
  }

  /** A chain start: 0, or an entry of the table. */
  predicate IsLink(tab: seq<SymbolEntry>, i: nat) {
    i == 0 || i < |tab|
  }

  /** Every block's newest entry is an entry of the table, or 0. */
  predicate LastsInRange(tab: seq<SymbolEntry>, btab: seq<BlockEntry>) {
    forall b :: 0 <= b < |btab| ==> IsLink(tab, btab[b].last)
  }

  /** Every display slot names a block. */
  predicate DisplayInRange(display: seq<nat>, btab: seq<BlockEntry>) {
    forall l :: 0 <= l < |display| ==> display[l] < |btab|
  }

  /** The entries visited when walking the chain from `i`, in visiting order. */
  function Chain(tab: seq<SymbolEntry>, i: nat): (c: seq<nat>)
    requires Descending(tab) && IsLink(tab, i)
    ensures forall k :: k in c ==> 0 < k <= i
    ensures forall p, q :: 0 <= p < q < |c| ==> c[p] > c[q]
    decreases i
  {
    if i == 0 then []
    else
      var rest := Chain(tab, tab[i].link);
      assert forall q :: 0 <= q < |rest| ==> rest[q] in rest;
      assert forall q :: 0 <= q < |rest| ==> rest[q] <= tab[i].link < i;
      [i] + rest
  }

  /** The first entry named `name` on the chain from `i`: since a chain descends, that is
      the newest one on it. */
  function ChainFind(tab: seq<SymbolEntry>, i: nat, name: string): (r: Option<nat>)
    requires Descending(tab) && IsLink(tab, i)
    ensures r.Some? ==> r.value in Chain(tab, i) && tab[r.value].name == name
    ensures r.Some? ==> forall k :: k in Chain(tab, i) && k > r.value ==> tab[k].name != name
    ensures r.None? ==> forall k :: k in Chain(tab, i) ==> tab[k].name != name
    decreases i
  {
    if i == 0 then None
    else if tab[i].name == name then Some(i)
    else ChainFind(tab, tab[i].link, name)
  }

  /** The highest entry at or below `k` named `name` at level 0. */
  function GlobalFind(tab: seq<SymbolEntry>, k: int, name: string): (r: Option<nat>)
    requires k < |tab|
    ensures r.Some? ==> r.value <= k && tab[r.value].name == name && tab[r.value].level == 0
    ensures r.Some? ==> forall j :: r.value < j <= k ==> !(tab[j].name == name && tab[j].level == 0)
    ensures r.None? ==> forall j :: 0 <= j <= k ==> !(tab[j].name == name && tab[j].level == 0)
    decreases k + 1
  {
    if k < 0 then None
    else if tab[k].name == name && tab[k].level == 0 then Some(k)
    else GlobalFind(tab, k - 1, name)
  }

  /** What `lookup` finds: the chains of levels `lev` down to 0, then the level-0 scan. */
  function Resolve(tab: seq<SymbolEntry>, btab: seq<BlockEntry>, display: seq<nat>, lev: int, name: string): (r: Option<nat>)
    requires Descending(tab) && LastsInRange(tab, btab) && DisplayInRange(display, btab) && lev < |display|
    ensures r.Some? ==> r.value < |tab| && tab[r.value].name == name
    ensures r.None? ==> forall j :: 0 <= j < |tab| && tab[j].level == 0 ==> tab[j].name != name
    decreases lev + 1
  {
    if lev < 0 then GlobalFind(tab, |tab| - 1, name)
    else
      match ChainFind(tab, btab[display[lev]].last, name)
      case Some(i) => Some(i)
      case None => Resolve(tab, btab, display, lev - 1, name)
  }

  /** A name on a chain of a level being searched is found, by that level or a deeper one. */
  lemma {:induction false} ResolveFindsChained(tab: seq<SymbolEntry>, btab: seq<BlockEntry>, display: seq<nat>, lev: int, name: string, l: nat, k: nat)
    requires Descending(tab) && LastsInRange(tab, btab) && DisplayInRange(display, btab) && lev < |display|
    requires l <= lev && k in Chain(tab, btab[display[l]].last) && tab[k].name == name
    ensures Resolve(tab, btab, display, lev, name).Some?
    decreases lev
  {
    if ChainFind(tab, btab[display[lev]].last, name).None? {
      ResolveFindsChained(tab, btab, display, lev - 1, name, l, k);
    }
  }

  /** The link a new entry gets from its block's newest entry `last`. */
  function LinkFor(kind: ObjectKind, tab: seq<SymbolEntry>, last: nat): (link: nat)
    requires IsLink(tab, last)
  {
    if kind == VARIABLE then (if last != 0 && tab[last].kind == VARIABLE then last else 0)
    else if kind == FIELD then (if last != 0 && tab[last].kind in {VARIABLE, FIELD} then last else 0)
    else last
  }

  /** The address of a new entry: the one given, or the next variable slot `dx` for a
      variable, or 0. */
  function AddressFor(kind: ObjectKind, address: Option<int>, dx: int): int {
    if address.Some? then address.value else if kind == VARIABLE then dx else 0
  }

  /** Appending an entry linked by the source's rule keeps the table well linked. */
  lemma AppendKeepsLinks(tab: seq<SymbolEntry>, e: SymbolEntry, last: nat)
    requires WellLinked(tab) && IsLink(tab, last) && e.link == LinkFor(e.kind, tab, last)
    ensures WellLinked(tab + [e])
  {
    var t := tab + [e];
    forall i | 0 <= i < |t|
      ensures (t[i].link == 0 || t[i].link < i)
    {
      if i < |tab| {
        assert t[i] == tab[i];
      }
    }
    forall i | 0 <= i < |t|
      ensures (t[i].link != 0 && t[i].kind == VARIABLE ==> t[t[i].link].kind == VARIABLE)
              && (t[i].link != 0 && t[i].kind == FIELD ==> t[t[i].link].kind in {VARIABLE, FIELD})
    {
      if i < |tab| {
        assert t[i] == tab[i];
      }
    }
  }

  /** A chain keeps its entries when the table grows. */
  lemma {:induction false} ChainStable(tab: seq<SymbolEntry>, more: seq<SymbolEntry>, i: nat)
    requires Descending(tab) && Descending(tab + more) && IsLink(tab, i)
    ensures Chain(tab + more, i) == Chain(tab, i)
    decreases i
  {
    if i != 0 {
      assert (tab + more)[i] == tab[i];
      ChainStable(tab, more, tab[i].link);
    }
  }

  /** The new entry heads its block's chain: after it, that chain holds the old chain
      only when the link rule kept it. */
  lemma ChainAfterAppend(tab: seq<SymbolEntry>, e: SymbolEntry, last: nat)
    requires WellLinked(tab) && IsLink(tab, last) && e.link == LinkFor(e.kind, tab, last) && |tab| > 0
    ensures WellLinked(tab + [e])
    ensures Chain(tab + [e], |tab|) == [|tab|] + Chain(tab, e.link)
  {
    AppendKeepsLinks(tab, e, last);
    ChainStable(tab, [e], e.link);
  }

  /** The link rule `enter` evidently intends, as in Wirth's Pascal-S: every entry links
      to its block's newest entry, whatever its kind. */
  function CorrectedLink(last: nat): nat {
    last
  }

  /** Under the corrected rule a block's chain only ever grows: the new entry heads it and
      every entry on it before is still on it, so both lookups keep finding them. */
  lemma CorrectedLinkKeepsChain(tab: seq<SymbolEntry>, e: SymbolEntry, last: nat)
    requires Descending(tab) && IsLink(tab, last) && e.link == CorrectedLink(last) && |tab| > 0
    ensures Descending(tab + [e])
    ensures Chain(tab + [e], |tab|) == [|tab|] + Chain(tab, last)
    ensures forall k :: k in Chain(tab, last) ==> k in Chain(tab + [e], |tab|)
  {
    var t := tab + [e];
    forall i | 0 <= i < |t|
      ensures t[i].link == 0 || t[i].link < i
    {
      if i < |tab| {
        assert t[i] == tab[i];
      }
    }
    ChainStable(tab, [e], last);
  }

  /** Making a new entry its block's newest keeps every block's newest entry in range. */
  lemma NewestKeepsLasts(tab: seq<SymbolEntry>, btab: seq<BlockEntry>, b: nat, e: SymbolEntry, block: BlockEntry)
    requires LastsInRange(tab, btab) && b < |btab| && block.last == |tab|
    ensures LastsInRange(tab + [e], btab[b := block])
  {
  }

  /** The newest entry of the current block, unless it is entry 0, is what `lookup` finds
      for its name: it shadows every older entry of that name. */
  lemma NewestIsResolved(tab: seq<SymbolEntry>, btab: seq<BlockEntry>, display: seq<nat>, lev: nat, name: string)
    requires Descending(tab) && LastsInRange(tab, btab) && DisplayInRange(display, btab) && lev < |display|
    requires btab[display[lev]].last == |tab| - 1 != 0 && tab[|tab| - 1].name == name
    ensures Resolve(tab, btab, display, lev, name) == Some(|tab| - 1)
  {
  }

  /** The blocks of the open levels 0 to `level` were made one after another. */
  predicate ScopesIncrease(display: seq<nat>, level: nat) {
    forall i, j :: 0 <= i < j <= level && j < |display| ==> display[i] < display[j]
  }

  /** A snapshot of everything `lookup` reads: tables, display and current level. */
  datatype View = View(tab: seq<SymbolEntry>, btab: seq<BlockEntry>, display: seq<nat>, level: nat)

  predicate ViewOk(v: View) {
    Descending(v.tab) && LastsInRange(v.tab, v.btab) && DisplayInRange(v.display, v.btab) && v.level < |v.display|
  }

  /** `lookup` on a snapshot. */
  function Find(v: View, name: string): (r: Option<nat>)
    requires ViewOk(v)
    ensures r.Some? ==> r.value < |v.tab| && v.tab[r.value].name == name
  {
    Resolve(v.tab, v.btab, v.display, v.level, name)
  }

  /** `lookup_current_scope` on a snapshot: the chain of the current level's block. */
  function ScopeFind(v: View, name: string): (r: Option<nat>)
    requires ViewOk(v)
    ensures r.Some? ==> 0 < r.value < |v.tab| && v.tab[r.value].name == name
  {
    ChainFind(v.tab, v.btab[v.display[v.level]].last, name)
  }

  /** `v1` is `v0` after work done at `v0`'s level or deeper: the same level and open
      blocks, tables that only grew, and the blocks of the enclosing levels untouched. */
  predicate Kept(v0: View, v1: View) {
    ViewOk(v0) && ViewOk(v1) && v1.level == v0.level
    && v0.tab <= v1.tab && |v0.btab| <= |v1.btab| && |v1.display| == |v0.display|
    && (forall j :: 0 <= j <= v0.level ==> v1.display[j] == v0.display[j])
    && (forall j :: 0 <= j < v0.level ==> v1.btab[v0.display[j]] == v0.btab[v0.display[j]])
  }

  lemma KeptReflexive(v: View)
    requires ViewOk(v)
    ensures Kept(v, v)
  {
  }

  lemma KeptTransitive(v0: View, v1: View, v2: View)
    requires Kept(v0, v1) && Kept(v1, v2)
    ensures Kept(v0, v2)
  {
    assert v0.tab <= v2.tab by {
      assert v0.tab == v1.tab[..|v0.tab|] && v1.tab == v2.tab[..|v1.tab|];
    }
  }

  /** An entry made at the current level keeps the view. */
  lemma EnterKept(v0: View, e: SymbolEntry, block: BlockEntry)
    requires ViewOk(v0) && ScopesIncrease(v0.display, v0.level)
    requires ViewOk(View(v0.tab + [e], v0.btab[v0.display[v0.level] := block], v0.display, v0.level))
    ensures Kept(v0, View(v0.tab + [e], v0.btab[v0.display[v0.level] := block], v0.display, v0.level))
  {
  }

  /** The chain walk finds the same entry when the table grows. */
  lemma {:induction false} ChainFindStable(tab: seq<SymbolEntry>, more: seq<SymbolEntry>, i: nat, name: string)
    requires Descending(tab) && Descending(tab + more) && IsLink(tab, i)
    ensures ChainFind(tab + more, i, name) == ChainFind(tab, i, name)
    decreases i
  {
    if i != 0 {
      assert (tab + more)[i] == tab[i];
      ChainFindStable(tab, more, tab[i].link, name);
    }
  }

  /** Work inside a scope changes nothing that the enclosing levels' chains yield. */
  lemma KeptKeepsOuterChains(v0: View, v1: View, l: nat, name: string)
    requires Kept(v0, v1) && l < v0.level
    ensures ChainFind(v1.tab, v1.btab[v1.display[l]].last, name) == ChainFind(v0.tab, v0.btab[v0.display[l]].last, name)
  {
    var more := v1.tab[|v0.tab|..];
    assert v1.tab == v0.tab + more;
    ChainFindStable(v0.tab, more, v0.btab[v0.display[l]].last, name);
  }

  /** A procedure's round: a new scope whose block the display names, the procedure's
      entry made in the enclosing block, work at the new level, and back out. The view
      is kept, and the enclosing block still ends with the procedure's entry. */
  lemma ScopeRoundKept(v0: View, v1: View, v2: View, e: SymbolEntry, block: BlockEntry)
    requires ViewOk(v0) && ScopesIncrease(v0.display, v0.level) && v0.level + 1 < |v0.display|
    requires v1 == View(v0.tab + [e], (v0.btab + [EmptyBlock])[v0.display[v0.level] := block],
                        v0.display[v0.level + 1 := |v0.btab|], v0.level + 1)
    requires Kept(v1, v2)
    ensures Kept(v0, v2.(level := v0.level))
    ensures v2.btab[v2.display[v0.level]] == block
  {
    var v3 := v2.(level := v0.level);
    assert v0.tab <= v3.tab by {
      assert v0.tab == v1.tab[..|v0.tab|] && v1.tab == v2.tab[..|v1.tab|];
    }
    forall j | 0 <= j < v0.level
      ensures v3.btab[v0.display[j]] == v0.btab[v0.display[j]]
    {
      assert v1.display[j] == v0.display[j];
      assert v0.display[j] < v0.display[v0.level];
    }
  }

  // ---------------------------------------------------------------------------
  // The table

  class SymbolTable {
    var tab: seq<SymbolEntry>
    var atab: seq<ArrayEntry>
    var btab: seq<BlockEntry>
    var tx: int
    var ax: int
    var bx: int
    var level: nat
    const display: array<nat>
    var dx: int

    /** The counters index the newest entries, the display has its ten slots naming
        blocks, the current level has a slot, and the chains are well formed. */
    predicate Valid()
      reads this, display
    {
      display.Length == DisplaySize
      && tx == |tab| - 1 && ax == |atab| - 1 && bx == |btab| - 1 && |btab| >= 1
      && level < DisplaySize
      && WellLinked(tab) && LastsInRange(tab, btab) && DisplayInRange(display[..], btab)
      && ScopesIncrease(display[..], level)
    }

    /** The state `lookup` reads, as a value. */
    function Snapshot(): (v: View)
      reads this, display
      requires Valid()
      ensures ViewOk(v) && v.tab == tab && v.level == level
    {
      View(tab, btab, display[..], level)
    }

    /** The global block 0 only, at level 0, all display slots on it. */
    constructor ()
      ensures Valid() && fresh(display)
      ensures tab == [] && atab == [] && btab == [EmptyBlock]
      ensures level == 0 && dx == 0 && display[..] == seq(DisplaySize, _ => 0)
    {
      tab := [];
      atab := [];
      btab := [EmptyBlock];
      tx := -1;
      ax := -1;
      bx := 0;
      level := 0;
      display := new nat[DisplaySize](_ => 0);
      dx := 0;
    }

    /** `enter`: appends one entry to the block of level `lvl` (the current level when
        absent), linked by the link rule, and makes it that block's newest entry. A
        variable also counts into the block's `vsze` and, without an explicit address,
        takes the address `dx`, which moves on. */
    method Enter(name: string, kind: ObjectKind, t: Type, lvl: Option<int>, ref: int, normal: bool, address: Option<int>)
      returns (r: int)
      requires Valid() && 0 <= lvl.GetOr(level) < DisplaySize
      modifies this
      ensures Valid()
      ensures r == tx == old(tx) + 1 && |tab| == r + 1
      ensures var l := lvl.GetOr(old(level));
              var b := display[l];
              var last := old(btab[b].last);
              tab == old(tab) + [SymbolEntry(name, kind, t, l, AddressFor(kind, address, old(dx)), ref, normal, LinkFor(kind, old(tab), last))]
              && btab == old(btab)[b := old(btab[b]).(last := r, vsze := old(btab[b].vsze) + if kind == VARIABLE then 1 else 0)]
      ensures dx == old(dx) + (if kind == VARIABLE && address.None? then 1 else 0)
      ensures atab == old(atab) && ax == old(ax) && bx == old(bx) && level == old(level)
      ensures lvl.GetOr(level) == level && r != 0 ==> Resolve(tab, btab, display[..], level, name) == Some(r)
    {
      var l := lvl.GetOr(level);
      var b := display[l];
      var last := btab[b].last;
      var e := SymbolEntry(name, kind, t, l, AddressFor(kind, address, dx), ref, normal, LinkFor(kind, tab, last));
      var block := btab[b].(last := |tab|, vsze := btab[b].vsze + if kind == VARIABLE then 1 else 0);
      AppendKeepsLinks(tab, e, last);
      NewestKeepsLasts(tab, btab, b, e, block);
      if kind == VARIABLE && address.None? {
        dx := dx + 1;
      }
      tx := tx + 1;
      btab := btab[b := block];
      tab := tab + [e];
      if l == level && tx != 0 {
        NewestIsResolved(tab, btab, display[..], level, name);
      }
      r := tx;
    }

    /** `enter_array`: appends one array entry, sized `(high - low + 1) * element_size`. */
    method EnterArray(indexType: Type, elementType: Type, low: int, high: int, elementSize: int) returns (r: int)
      requires Valid()
      modifies this
      ensures Valid()
      ensures atab == old(atab) + [ArrayEntry(indexType, elementType, low, high, elementSize, (high - low + 1) * elementSize)]
      ensures r == ax == |atab| - 1
      ensures tab == old(tab) && btab == old(btab) && tx == old(tx) && bx == old(bx)
      ensures level == old(level) && dx == old(dx)
    {
      ax := ax + 1;
      atab := atab + [ArrayEntry(indexType, elementType, low, high, elementSize, (high - low + 1) * elementSize)];
      r := ax;
    }

    /** `enter_block`: appends an empty block. */
    method EnterBlock() returns (r: int)
      requires Valid()
      modifies this
      ensures Valid()
      ensures btab == old(btab) + [EmptyBlock] && r == bx == |btab| - 1
      ensures tab == old(tab) && atab == old(atab) && tx == old(tx) && ax == old(ax)
      ensures level == old(level) && dx == old(dx)
    {
      bx := bx + 1;
      btab := btab + [EmptyBlock];
      r := bx;
    }

    /** `lookup`: the newest entry named `name` on the chains of the current level down to
        level 0, else the newest level-0 entry of that name. */
    method Lookup(name: string) returns (r: Option<nat>)
      requires Valid()
      ensures r == Resolve(tab, btab, display[..], level, name)
    {
      var lev: int := level;
      while lev >= 0
        invariant -1 <= lev <= level
        invariant Resolve(tab, btab, display[..], level, name) == Resolve(tab, btab, display[..], lev, name)
        decreases lev + 1
      {
        var found := WalkChain(btab[display[lev]].last, name);
        if found.Some? {
          return found;
        }
        lev := lev - 1;
      }
      var k := tx;
      while k >= 0
        invariant -1 <= k <= tx
        invariant GlobalFind(tab, k, name) == GlobalFind(tab, tx, name)
        decreases k + 1
      {
        if tab[k].name == name && tab[k].level == 0 {
          return Some(k);
        }
        k := k - 1;
      }
      return None;
    }

    /** `lookup_current_scope`: the newest entry named `name` on the innermost block's
        chain. */
    method LookupCurrentScope(name: string) returns (r: Option<nat>)
      requires Valid()
      ensures r == ChainFind(tab, btab[display[level]].last, name)
      ensures r.Some? ==> 0 < r.value < |tab|
    {
      r := WalkChain(btab[display[level]].last, name);
    }

    /** The chain walk both lookups share: from `start` along the links until 0. */
    method WalkChain(start: nat, name: string) returns (r: Option<nat>)
      requires Descending(tab) && IsLink(tab, start)
      ensures r == ChainFind(tab, start, name)
    {
      var i := start;
      while i != 0
        invariant IsLink(tab, i)
        invariant ChainFind(tab, i, name) == ChainFind(tab, start, name)
        decreases i
      {
        if tab[i].name == name {
          return Some(i);
        }
        i := tab[i].link;
      }
      return None;
    }

    /** `enter_scope`: one level deeper, in a fresh block that the display names, with
        `dx` back to 3. There is no slot past level 9. */
    method EnterScope() returns (r: Outcome<SemanticError>)
      requires Valid()
      modifies this, display
      ensures Valid()
      ensures old(level) + 1 >= DisplaySize ==> r == Fail(DisplayOverflow(old(level) + 1))
      ensures r.Fail? ==> unchanged(this) && unchanged(display)
      ensures r.Pass? ==> level == old(level) + 1 && btab == old(btab) + [EmptyBlock] && bx == old(bx) + 1
                          && display[..] == old(display[..])[level := bx] && dx == 3
      ensures r.Pass? <==> old(level) + 1 < DisplaySize
      ensures tab == old(tab) && atab == old(atab) && tx == old(tx) && ax == old(ax)
    {
      if level + 1 >= DisplaySize {
        return Fail(DisplayOverflow(level + 1));
      }
      var b := EnterBlock();
      level := level + 1;
      display[level] := b;
      dx := 3;
      return Pass;
    }

    /** `exit_scope`: back out to the enclosing level, with `dx` taken from that block's
        `vsze`; nothing is removed, and at level 0 nothing happens. */
    method ExitScope()
      requires Valid()
      modifies this
      ensures Valid()
      ensures tab == old(tab) && atab == old(atab) && btab == old(btab)
      ensures tx == old(tx) && ax == old(ax) && bx == old(bx)
      ensures old(level) == 0 ==> level == 0 && dx == old(dx)
      ensures old(level) > 0 ==> level == old(level) - 1 && dx == btab[display[level]].vsze
    {
      if level > 0 {
        level := level - 1;
        var b := display[level];
        dx := btab[b].vsze;
      }
    }

    /** `get_entry`: the entry at `index`, `None` outside the table. */
    function GetEntry(index: int): (r: Option<SymbolEntry>)
      reads this
      ensures r.Some? <==> 0 <= index < |tab|
      ensures r.Some? ==> r.value == tab[index]
    {
      if 0 <= index < |tab| then Some(tab[index]) else None
    }

    function GetArrayEntry(index: int): (r: Option<ArrayEntry>)
      reads this
      ensures r.Some? <==> 0 <= index < |atab|
      ensures r.Some? ==> r.value == atab[index]
    {
      if 0 <= index < |atab| then Some(atab[index]) else None
    }

    function GetBlockEntry(index: int): (r: Option<BlockEntry>)
      reads this
      ensures r.Some? <==> 0 <= index < |btab|
      ensures r.Some? ==> r.value == btab[index]
    {
      if 0 <= index < |btab| then Some(btab[index]) else None
    }
  }

  /** Under the source's link rule a constant declared in a procedure before a variable
      drops off the block's chain, and `lookup` no longer finds it, although it is in the
      table at the procedure's level. */
  method ConstantLostBehindVariable() returns (found: Option<nat>, declared: Option<SymbolEntry>)
    ensures found == None
    ensures declared.Some? && declared.value.name == "k" && declared.value.kind == CONSTANT && declared.value.level == 1
  {
    var st := new SymbolTable();
    var p := st.Enter("p", PROGRAM, VoidType, Some(0), 0, true, None);
    var o := st.EnterScope();
    var k := st.Enter("k", CONSTANT, IntegerType, None, 0, true, None);
    var v := st.Enter("v", VARIABLE, IntegerType, None, 0, true, None);
    found := st.Lookup("k");
    declared := st.GetEntry(k);
  }
}
