/** Executables in hunk format as data, how they are written to a file, and what loading the file
    yields. */
module HunkFormat {
  import opened Base
  import opened M68k
  import opened Loader
  import opened Relocation

  // A hunk has code, data or zeros, and any number of other blocks in any order.
  datatype Content = CodeHunk(data: seq<byte>) | DataHunk(data: seq<byte>) | BssHunk(ndwords: nat)

  datatype Group = Group(ref: nat, positions: seq<nat>)

  datatype Symbol = Symbol(name: seq<byte>, value: u32)

  datatype Aux = Relocs(groups: seq<Group>) | Symbols(syms: seq<Symbol>) | Debug(data: seq<byte>)

  datatype Hunk = Hunk(content: Content, aux: seq<Aux>)

  // --------------------------------------------------------- well-formedness

  function Size(c: Content): nat {
    match c
    case CodeHunk(data) => |data|
    case DataHunk(data) => |data|
    case BssHunk(n) => 4 * n
  }

  // Code has to leave room for an RTS.
  predicate ContentOk(c: Content) {
    Size(c) % 4 == 0 && Size(c) <= if c.CodeHunk? then 65532 else 65536
  }

  predicate GroupOk(n: nat, g: Group) {
    && 0 < |g.positions| < TWO32 && g.ref < n
    && forall k :: 0 <= k < |g.positions| ==> g.positions[k] + 4 <= 65536
  }

  predicate SymbolOk(s: Symbol) { |s.name| % 4 == 0 && 0 < |s.name| < TWO32 - 4 }

  predicate AuxOk(n: nat, a: Aux) {
    match a
    case Relocs(gs) => forall k :: 0 <= k < |gs| ==> GroupOk(n, gs[k])
    case Symbols(ss) => forall k :: 0 <= k < |ss| ==> SymbolOk(ss[k])
    case Debug(data) => |data| % 4 == 0 && |data| < TWO32
  }

  predicate HunkOk(n: nat, h: Hunk) {
    ContentOk(h.content) && forall k :: 0 <= k < |h.aux| ==> AuxOk(n, h.aux[k])
  }

  predicate ProgramOk(p: seq<Hunk>) {
    1 <= |p| <= 4 && forall k :: 0 <= k < |p| ==> HunkOk(|p|, p[k])
  }

  // ------------------------------------------------------------ the file

  // Long words, high byte first. The numbers that files consist of, block types among them, are those
  // of the AmigaDOS format.
  function Long(v: u32): (b: seq<byte>)
    ensures |b| == 4
  {
    [v / 0x100_0000, v / 0x1_0000 % 0x100, v / 0x100 % 0x100, v % 0x100]
  }

  function Dwords(xs: seq<nat>): seq<byte> {
    if xs == [] then [] else Long(Low32(xs[0])) + Dwords(xs[1..])
  }

  function GroupBytes(g: Group): seq<byte> {
    Long(Low32(|g.positions|)) + (Long(Low32(g.ref)) + Dwords(g.positions))
  }

  function GroupsBytes(gs: seq<Group>): seq<byte> {
    if gs == [] then Long(0) else GroupBytes(gs[0]) + GroupsBytes(gs[1..])
  }

  function SymbolsBytes(ss: seq<Symbol>): seq<byte> {
    if ss == [] then Long(0)
    else Long(Low32(|ss[0].name| / 4)) + (ss[0].name + (Long(ss[0].value) + SymbolsBytes(ss[1..])))
  }

  function AuxBytes(a: Aux): seq<byte> {
    match a
    case Relocs(gs) => Long(1004) + GroupsBytes(gs)
    case Symbols(ss) => Long(1008) + SymbolsBytes(ss)
    case Debug(data) => Long(1009) + (Long(Low32(|data| / 4)) + data)
  }

  function AuxsBytes(aux: seq<Aux>): seq<byte> {
    if aux == [] then Long(1010) else AuxBytes(aux[0]) + AuxsBytes(aux[1..])
  }

  function ContentBytes(c: Content): seq<byte> {
    match c
    case CodeHunk(data) => Long(1001) + (Long(Low32(|data| / 4)) + data)
    case DataHunk(data) => Long(1002) + (Long(Low32(|data| / 4)) + data)
    case BssHunk(n) => Long(1003) + Long(Low32(n))
  }

  function HunksBytes(hs: seq<Hunk>): seq<byte> {
    if hs == [] then [] else ContentBytes(hs[0].content) + (AuxsBytes(hs[0].aux) + HunksBytes(hs[1..]))
  }

  // The sizes in the header
  function SizesBytes(hs: seq<Hunk>): seq<byte> {
    if hs == [] then [] else Long(Low32(Size(hs[0].content) / 4)) + SizesBytes(hs[1..])
  }

  function Serialize(p: seq<Hunk>): seq<byte> {
    Long(1011) + (Long(0) + (Long(Low32(|p|)) + (Long(0)
        + (Long(Low32(|p| - 1)) + (SizesBytes(p) + HunksBytes(p))))))
  }

  // ------------------------------------------------------------ the meaning

  function HunkBase(i: nat): nat { 65536 * i }

  function Zeros(n: nat): (b: seq<byte>)
    ensures |b| == n
  {
    seq(n, _ => 0)
  }

  // What is in the hunk before relocation
  function Contents(c: Content): (b: seq<byte>)
    ensures |b| == Size(c)
  {
    if c.BssHunk? then Zeros(4 * c.ndwords) else c.data
  }

  function GroupFixups(i: nat, ref: nat, positions: seq<nat>): (fs: seq<Fixup>)
    ensures |fs| == |positions|
  {
    seq(|positions|, k requires 0 <= k < |positions| => Fixup(HunkBase(i) + positions[k], 0x10_0000
        + HunkBase(ref)))
  }

  function GroupsFixups(i: nat, gs: seq<Group>): seq<Fixup> {
    if gs == [] then [] else GroupFixups(i, gs[0].ref, gs[0].positions) + GroupsFixups(i, gs[1..])
  }

  // The relocations of hunk i, in the order of the file
  function AuxFixups(i: nat, aux: seq<Aux>): seq<Fixup> {
    if aux == [] then []
    else (if aux[0].Relocs? then GroupsFixups(i, aux[0].groups) else []) + AuxFixups(i, aux[1..])
  }

  // A fixup inside hunk i
  predicate InHunk(i: nat, f: Fixup) { HunkBase(i) <= f.at && f.at + 4 <= HunkBase(i + 1) }

  lemma {:induction false} GroupsInHunk(n: nat, i: nat, gs: seq<Group>)
    requires forall k :: 0 <= k < |gs| ==> GroupOk(n, gs[k])
    ensures forall k :: 0 <= k < |GroupsFixups(i, gs)| ==> InHunk(i, GroupsFixups(i, gs)[k])
  {
    if gs != [] {
      GroupsInHunk(n, i, gs[1..]);
      assert GroupOk(n, gs[0]);
    }
  }

  lemma {:induction false} AuxInHunk(n: nat, i: nat, aux: seq<Aux>)
    requires forall k :: 0 <= k < |aux| ==> AuxOk(n, aux[k])
    ensures forall k :: 0 <= k < |AuxFixups(i, aux)| ==> InHunk(i, AuxFixups(i, aux)[k])
  {
    hide GroupsFixups, InHunk;
    if aux != [] {
      AuxInHunk(n, i, aux[1..]);
      assert AuxOk(n, aux[0]);
      if aux[0].Relocs? {
        GroupsInHunk(n, i, aux[0].groups);
      }
    }
  }

  lemma FixupsInMemory(i: nat, fs: seq<Fixup>, mem: seq<byte>)
    requires i < MAX_HUNKS && |mem| == HUNK_MEMORY && forall k :: 0 <= k < |fs| ==> InHunk(i, fs[k])
    ensures InMemory(mem, fs)
  {
  }

  // Memory after loading hunk i
  function HunkMem(n: nat, mem: seq<byte>, i: nat, h: Hunk): (r: Option<seq<byte>>)
    requires HunkOk(n, h) && i < MAX_HUNKS && |mem| == HUNK_MEMORY
    ensures r.Some? ==> |r.value| == HUNK_MEMORY
  {
    var m := Patch(mem, HunkBase(i), Contents(h.content));
    AuxInHunk(n, i, h.aux);
    FixupsInMemory(i, AuxFixups(i, h.aux), m);
    Apply(m, AuxFixups(i, h.aux))
  }

  // Memory after loading the hunks hs, the first of which has number i
  function ProgramMem(n: nat, mem: seq<byte>, i: nat, hs: seq<Hunk>): (r: Option<seq<byte>>)
    requires |mem| == HUNK_MEMORY && i + |hs| <= MAX_HUNKS && forall k :: 0 <= k < |hs| ==> HunkOk(n, hs[k])
    ensures r.Some? ==> |r.value| == HUNK_MEMORY
    decreases |hs|
  {
    if hs == [] then Some(mem)
    else
      match HunkMem(n, mem, i, hs[0])
      case None => None
      case Some(m) => ProgramMem(n, m, i + 1, hs[1..])
  }

  // The last code hunk is where execution starts.
  function CodeOf(i: nat, c: Content, code: Option<Code>): Option<Code>
    requires i < MAX_HUNKS && ContentOk(c)
  {
    if c.CodeHunk? then Some(Code(0x10_0000 + HunkBase(i), |c.data|)) else code
  }

  function LastCode(i: nat, hs: seq<Hunk>, code: Option<Code>): Option<Code>
    requires i + |hs| <= MAX_HUNKS && forall k :: 0 <= k < |hs| ==> ContentOk(hs[k].content)
    decreases |hs|
  {
    if hs == [] then code else LastCode(i + 1, hs[1..], CodeOf(i, hs[0].content, code))
  }
}
