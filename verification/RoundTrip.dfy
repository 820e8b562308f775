/** Loading a serialised program yields what the program means. */
module RoundTrip {
  import opened Base
  import opened M68k
  import opened Loader
  import opened Relocation
  import opened HunkFormat

  // ------------------------------------------------------------- reading

  lemma ReadAt(f: seq<byte>, pos: nat, v: u32)
    requires CodeAt(f, pos, Long(v))
    ensures Read(f, pos) == Some(v)
  {
    var b := f[pos..pos + 4];
    assert b == Long(v);
    DwordSlice(f, pos);
    LongValue(v);
  }

  lemma LongValue(v: u32)
    ensures DwordAt(Long(v), 0) == v
  {
    var hi, mid := v / 0x1_0000, v / 0x100;
    assert mid == 0x100 * hi + mid % 0x100 && hi == 0x100 * (v / 0x100_0000) + hi % 0x100;
  }

  lemma ReadFirst(f: seq<byte>, pos: nat, v: u32, rest: seq<byte>)
    requires CodeAt(f, pos, Long(v) + rest)
    ensures Read(f, pos) == Some(v) && CodeAt(f, pos + 4, rest)
  {
    hide Long, CodeAt, Read;
    CodeAtSplit(f, pos, Long(v), rest);
    ReadAt(f, pos, v);
  }

  // --------------------------------------------------------------- states

  function HunkTable(n: nat): seq<Option<nat>> {
    seq(MAX_HUNKS, i requires 0 <= i < MAX_HUNKS => if i < n then Some(HunkBase(i)) else None)
  }

  // n hunks; hunk i is being loaded
  function At(n: nat, i: nat, mem: seq<byte>, code: Option<Code>): State
    requires 1 <= n <= MAX_HUNKS && i < TWO32
  {
    State(HunkTable(n), Some(n - 1), i, mem, code)
  }

  lemma AtOk(n: nat, i: nat, mem: seq<byte>, code: Option<Code>)
    requires 1 <= n <= MAX_HUNKS && i < TWO32 && |mem| == HUNK_MEMORY
    ensures StateOk(At(n, i, mem, code))
    ensures forall k: u32 :: k < n ==> HunkAt(At(n, i, mem, code), k) == Some(HunkBase(k))
  {
  }

  // The result of relocating and going on at position pos
  function Then(r: Option<seq<byte>>, n: nat, i: nat, code: Option<Code>, pos: nat): Result
    requires 1 <= n <= MAX_HUNKS && i < TWO32
  {
    match r
    case None => Error
    case Some(m) => Done(At(n, i, m, code), pos)
  }

  // ---------------------------------------------------------- relocations

  lemma {:induction false} ApplyAppend(m: seq<byte>, a: seq<Fixup>, b: seq<Fixup>)
    requires InMemory(m, a) && InMemory(m, b) && InMemory(m, a + b)
    ensures Apply(m, a + b) == match Apply(m, a) case None => None case Some(m1) => Apply(m1, b)
    decreases |a|
  {
    hide One, DwordAt;
    if a == [] {
      assert a + b == b;
    } else {
      assert (a + b)[1..] == a[1..] + b;
      if DwordAt(m, a[0].at) <= LIMIT {
        ApplyAppend(One(m, a[0]), a[1..], b);
      }
    }
  }

  // One relocation of hunk i
  lemma FixIs(n: nat, i: nat, mem: seq<byte>, code: Option<Code>, ref: u32, p: u32)
    requires 1 <= n <= MAX_HUNKS && i < n && ref < n && |mem| == HUNK_MEMORY && p + 4 <= MAX_HUNK_SIZE
    ensures StateOk(At(n, i, mem, code))
    ensures var f := Fixup(HunkBase(i) + p, HUNK_START_ADDRESS + HunkBase(ref));
            && f.at + 4 <= |mem|
            && Fix(At(n, i, mem, code), ref, p)
               == if DwordAt(mem, f.at) > LIMIT then Error else Done(At(n, i, One(mem, f), code), 0)
  {
    hide DwordAt, Long, Patch;
    AtOk(n, i, mem, code);
  }

  lemma {:induction false} FixupsAt(f: seq<byte>, pos: nat, n: nat, i: nat, mem: seq<byte>, code: Option<Code>,
      ref: u32,
                                    positions: seq<nat>)
    requires 1 <= n <= MAX_HUNKS && i < n && ref < n && |mem| == HUNK_MEMORY
    requires forall k :: 0 <= k < |positions| ==> positions[k] + 4 <= MAX_HUNK_SIZE
    requires CodeAt(f, pos, Dwords(positions))
    ensures StateOk(At(n, i, mem, code)) && InMemory(mem, GroupFixups(i, ref, positions))
    ensures Fixups(f, pos, |positions|, ref, At(n, i, mem, code))
            == Then(Apply(mem, GroupFixups(i, ref, positions)), n, i, code, pos + |Dwords(positions)|)
    decreases |positions|
  {
    hide Long, CodeAt, Fix, Read, DwordAt, One, At;
    AtOk(n, i, mem, code);
    var fs := GroupFixups(i, ref, positions);
    if positions != [] {
      var p := positions[0];
      ReadFirst(f, pos, Low32(p), Dwords(positions[1..]));
      FixIs(n, i, mem, code, ref, p);
      assert fs[1..] == GroupFixups(i, ref, positions[1..]);
      if DwordAt(mem, fs[0].at) <= LIMIT {
        FixupsAt(f, pos + 4, n, i, One(mem, fs[0]), code, ref, positions[1..]);
      }
    }
  }

  lemma ApplyNothing(mem: seq<byte>)
    ensures Apply(mem, []) == Some(mem)
  {
  }

  lemma GroupsInMemory(n: nat, i: nat, gs: seq<Group>, mem: seq<byte>)
    requires i < MAX_HUNKS && |mem| == HUNK_MEMORY && forall k :: 0 <= k < |gs| ==> GroupOk(n, gs[k])
    ensures InMemory(mem, GroupsFixups(i, gs))
  {
    hide GroupsFixups;
    GroupsInHunk(n, i, gs);
    FixupsInMemory(i, GroupsFixups(i, gs), mem);
  }

  // The header of a group is read; the positions follow.
  lemma GroupAt(f: seq<byte>, pos: nat, g: Group, rest: seq<byte>)
    requires 0 < |g.positions| < TWO32 && g.ref < MAX_HUNKS && CodeAt(f, pos, GroupBytes(g) + rest)
    ensures Read(f, pos) == Some(|g.positions|) && pos + 8 <= |f| && DwordAt(f, pos + 4) == g.ref
    ensures CodeAt(f, pos + 8, Dwords(g.positions)) && CodeAt(f, pos + |GroupBytes(g)|, rest)
    ensures |GroupBytes(g)| == 8 + |Dwords(g.positions)|
  {
    hide Long, CodeAt, DwordAt, Dwords;
    CodeAtSplit(f, pos, GroupBytes(g), rest);
    ReadFirst(f, pos, Low32(|g.positions|), Long(Low32(g.ref)) + Dwords(g.positions));
    ReadFirst(f, pos + 4, Low32(g.ref), Dwords(g.positions));
  }

  lemma {:induction false} RelocsAt(f: seq<byte>, pos: nat, n: nat, i: nat, mem: seq<byte>, code: Option<Code>,
      gs: seq<Group>)
    requires 1 <= n <= MAX_HUNKS && i < n && |mem| == HUNK_MEMORY
    requires forall k :: 0 <= k < |gs| ==> GroupOk(n, gs[k])
    requires CodeAt(f, pos, GroupsBytes(gs))
    ensures StateOk(At(n, i, mem, code)) && InMemory(mem, GroupsFixups(i, gs))
    ensures RelocBlock(f, pos, At(n, i, mem, code))
            == Then(Apply(mem, GroupsFixups(i, gs)), n, i, code, pos + |GroupsBytes(gs)|)
    decreases |gs|
  {
    hide Long, CodeAt, Fixups, Read, DwordAt, Apply, GroupFixups, GroupBytes, Dwords;
    AtOk(n, i, mem, code);
    GroupsInMemory(n, i, gs, mem);
    if gs == [] {
      ReadAt(f, pos, 0);
      assert Apply(mem, []) == Some(mem) by { ApplyNothing(mem); }
    } else {
      var g, rest := gs[0], gs[1..];
      assert GroupOk(n, g);
      GroupAt(f, pos, g, GroupsBytes(rest));
      FixupsAt(f, pos + 8, n, i, mem, code, g.ref, g.positions);
      GroupsInMemory(n, i, rest, mem);
      ApplyAppend(mem, GroupFixups(i, g.ref, g.positions), GroupsFixups(i, rest));
      match Apply(mem, GroupFixups(i, g.ref, g.positions))
      case None =>
      case Some(m) => RelocsAt(f, pos + |GroupBytes(g)|, n, i, m, code, rest);
    }
  }

  // ----------------------------------------------- symbols and debug data

  lemma {:induction false} SymbolsAt(f: seq<byte>, pos: nat, ss: seq<Symbol>)
    requires forall k :: 0 <= k < |ss| ==> SymbolOk(ss[k])
    requires CodeAt(f, pos, SymbolsBytes(ss))
    ensures SkipSymbols(f, pos) == Some(pos + |SymbolsBytes(ss)|)
    decreases |ss|
  {
    hide Long, CodeAt, Read;
    if ss == [] {
      ReadAt(f, pos, 0);
    } else {
      var s, rest := ss[0], SymbolsBytes(ss[1..]);
      assert SymbolOk(s);
      ReadFirst(f, pos, Low32(|s.name| / 4), s.name + (Long(s.value) + rest));
      CodeAtSplit(f, pos + 4, s.name, Long(s.value) + rest);
      CodeAtSplit(f, pos + 4 + |s.name|, Long(s.value), rest);
      SymbolsAt(f, pos + 8 + |s.name|, ss[1..]);
    }
  }

  // ------------------------------------------------------------- blocks

  // A block type is read and the block handled.
  lemma BlocksStep(f: seq<byte>, pos: nat, t: u32, rest: seq<byte>, st: State)
    requires StateOk(st) && CodeAt(f, pos, Long(t) + rest)
    ensures CodeAt(f, pos + 4, rest)
    ensures Blocks(f, pos, st) ==
            match Block(f, t, pos + 4, st) case Done(st', pos') => Blocks(f, pos', st') case r => r
  {
    hide Long, Block;
    ReadFirst(f, pos, t, rest);
  }

  // What one block that is not a hunk's contents does to memory
  function AuxMem(mem: seq<byte>, i: nat, a: Aux): Option<seq<byte>>
    requires a.Relocs? ==> InMemory(mem, GroupsFixups(i, a.groups))
  {
    if a.Relocs? then Apply(mem, GroupsFixups(i, a.groups)) else Some(mem)
  }

  lemma RelocsAux(f: seq<byte>, pos: nat, n: nat, i: nat, mem: seq<byte>, code: Option<Code>, a: Aux)
    requires 1 <= n <= MAX_HUNKS && i < n && |mem| == HUNK_MEMORY && AuxOk(n, a) && a.Relocs?
    requires CodeAt(f, pos, AuxBytes(a)) && StateOk(At(n, i, mem, code))
    ensures InMemory(mem, GroupsFixups(i, a.groups))
    ensures Blocks(f, pos, At(n, i, mem, code)) ==
            match Apply(mem, GroupsFixups(i, a.groups))
            case None => Error
            case Some(m) => (AtOk(n, i, m, code); Blocks(f, pos + |AuxBytes(a)|, At(n, i, m, code)))
  {
    hide Long, CodeAt, Blocks, RelocBlock, Apply, GroupsFixups, At, GroupsBytes;
    AtOk(n, i, mem, code);
    BlocksStep(f, pos, HUNK_RELOC32, GroupsBytes(a.groups), At(n, i, mem, code));
    RelocsAt(f, pos + 4, n, i, mem, code, a.groups);
  }

  lemma SymbolsAux(f: seq<byte>, pos: nat, n: nat, i: nat, mem: seq<byte>, code: Option<Code>, a: Aux)
    requires 1 <= n <= MAX_HUNKS && i < n && |mem| == HUNK_MEMORY && AuxOk(n, a) && a.Symbols?
    requires CodeAt(f, pos, AuxBytes(a)) && StateOk(At(n, i, mem, code))
    ensures Blocks(f, pos, At(n, i, mem, code)) == Blocks(f, pos + |AuxBytes(a)|, At(n, i, mem, code))
  {
    hide Long, CodeAt, Blocks, SkipSymbols, At, SymbolsBytes;
    BlocksStep(f, pos, HUNK_SYMBOL, SymbolsBytes(a.syms), At(n, i, mem, code));
    SymbolsAt(f, pos + 4, a.syms);
  }

  lemma DebugAux(f: seq<byte>, pos: nat, n: nat, i: nat, mem: seq<byte>, code: Option<Code>, a: Aux)
    requires 1 <= n <= MAX_HUNKS && i < n && |mem| == HUNK_MEMORY && AuxOk(n, a) && a.Debug?
    requires CodeAt(f, pos, AuxBytes(a)) && StateOk(At(n, i, mem, code))
    ensures Blocks(f, pos, At(n, i, mem, code)) == Blocks(f, pos + |AuxBytes(a)|, At(n, i, mem, code))
  {
    hide Long, CodeAt, Blocks, At;
    BlocksStep(f, pos, HUNK_DEBUG, Long(Low32(|a.data| / 4)) + a.data, At(n, i, mem, code));
    ReadFirst(f, pos + 4, Low32(|a.data| / 4), a.data);
  }

  lemma AuxAt(f: seq<byte>, pos: nat, n: nat, i: nat, mem: seq<byte>, code: Option<Code>, a: Aux, rest: seq<byte>)
    requires 1 <= n <= MAX_HUNKS && i < n && |mem| == HUNK_MEMORY && AuxOk(n, a)
    requires CodeAt(f, pos, AuxBytes(a) + rest)
    ensures StateOk(At(n, i, mem, code)) && CodeAt(f, pos + |AuxBytes(a)|, rest)
    ensures a.Relocs? ==> InMemory(mem, GroupsFixups(i, a.groups))
    ensures Blocks(f, pos, At(n, i, mem, code)) ==
            match AuxMem(mem, i, a)
            case None => Error
            case Some(m) => (AtOk(n, i, m, code); Blocks(f, pos + |AuxBytes(a)|, At(n, i, m, code)))
  {
    hide Long, CodeAt, Blocks, Apply, GroupsFixups, At, AuxBytes, AuxOk;
    AtOk(n, i, mem, code);
    CodeAtSplit(f, pos, AuxBytes(a), rest);
    match a
    case Relocs(_) => RelocsAux(f, pos, n, i, mem, code, a);
    case Symbols(_) => SymbolsAux(f, pos, n, i, mem, code, a);
    case Debug(_) => DebugAux(f, pos, n, i, mem, code, a);
  }

  lemma AuxsInMemory(n: nat, i: nat, aux: seq<Aux>, mem: seq<byte>)
    requires i < MAX_HUNKS && |mem| == HUNK_MEMORY && forall k :: 0 <= k < |aux| ==> AuxOk(n, aux[k])
    ensures InMemory(mem, AuxFixups(i, aux))
  {
    hide AuxFixups;
    AuxInHunk(n, i, aux);
    FixupsInMemory(i, AuxFixups(i, aux), mem);
  }

  // All blocks of a hunk behind its contents, in any order, and HUNK_END
  lemma {:induction false} AuxsAt(f: seq<byte>, pos: nat, n: nat, i: nat, mem: seq<byte>, code: Option<Code>,
      aux: seq<Aux>,
                                  rest: seq<byte>)
    requires 1 <= n <= MAX_HUNKS && i < n && |mem| == HUNK_MEMORY
    requires forall k :: 0 <= k < |aux| ==> AuxOk(n, aux[k])
    requires CodeAt(f, pos, AuxsBytes(aux) + rest)
    ensures StateOk(At(n, i, mem, code)) && InMemory(mem, AuxFixups(i, aux)) && CodeAt(f, pos + |AuxsBytes(aux)|, rest)
    ensures Blocks(f, pos, At(n, i, mem, code)) ==
            match Apply(mem, AuxFixups(i, aux))
            case None => Error
            case Some(m) => (AtOk(n, i + 1, m, code); Blocks(f, pos + |AuxsBytes(aux)|, At(n, i + 1, m, code)))
    decreases |aux|
  {
    hide Long, CodeAt, Blocks, Apply, GroupsFixups, AuxBytes, AuxOk, At;
    AtOk(n, i, mem, code);
    AuxsInMemory(n, i, aux, mem);
    CodeAtSplit(f, pos, AuxsBytes(aux), rest);
    if aux == [] {
      BlocksStep(f, pos, HUNK_END, rest, At(n, i, mem, code));
      ApplyNothing(mem);
      EndHunk(f, pos + 4, n, i, mem, code);
    } else {
      var a, tail := aux[0], aux[1..];
      assert AuxOk(n, a);
      assert AuxsBytes(aux) + rest == AuxBytes(a) + (AuxsBytes(tail) + rest);
      AuxAt(f, pos, n, i, mem, code, a, AuxsBytes(tail) + rest);
      AuxsInMemory(n, i, tail, mem);
      AuxSplit(mem, i, a, tail);
      match AuxMem(mem, i, a)
      case None =>
      case Some(m) => AuxsAt(f, pos + |AuxBytes(a)|, n, i, m, code, tail, rest);
    }
  }

  lemma EndHunk(f: seq<byte>, pos: nat, n: nat, i: nat, mem: seq<byte>, code: Option<Code>)
    requires 1 <= n <= MAX_HUNKS && i < n && |mem| == HUNK_MEMORY
    ensures StateOk(At(n, i, mem, code))
    ensures Block(f, HUNK_END, pos, At(n, i, mem, code)) == Done(At(n, i + 1, mem, code), pos)
  {
    hide HunkTable;
    AtOk(n, i, mem, code);
  }

  lemma AuxSplit(mem: seq<byte>, i: nat, a: Aux, tail: seq<Aux>)
    requires InMemory(mem, AuxFixups(i, [a] + tail)) && InMemory(mem, AuxFixups(i, tail))
    requires a.Relocs? ==> InMemory(mem, GroupsFixups(i, a.groups))
    ensures Apply(mem, AuxFixups(i, [a] + tail)) ==
            match AuxMem(mem, i, a) case None => None case Some(m) => Apply(m, AuxFixups(i, tail))
  {
    hide Apply, GroupsFixups;
    assert ([a] + tail)[1..] == tail;
    var fs := if a.Relocs? then GroupsFixups(i, a.groups) else [];
    assert AuxFixups(i, [a] + tail) == fs + AuxFixups(i, tail);
    ApplyAppend(mem, fs, AuxFixups(i, tail));
    ApplyNothing(mem);
  }

  lemma BssContent(f: seq<byte>, pos: nat, n: nat, i: nat, mem: seq<byte>, code: Option<Code>, c: Content)
    requires 1 <= n <= MAX_HUNKS && i < n && |mem| == HUNK_MEMORY && ContentOk(c) && c.BssHunk?
    requires CodeAt(f, pos, ContentBytes(c)) && StateOk(At(n, i, mem, code))
    ensures var m := Patch(mem, HunkBase(i), Contents(c));
            (AtOk(n, i, m, CodeOf(i, c, code));
             Blocks(f, pos, At(n, i, mem, code)) == Blocks(f, pos + |ContentBytes(c)|, At(n, i, m, CodeOf(i, c, code))))
  {
    hide Long, CodeAt, Blocks, HunkTable, Patch;
    AtOk(n, i, Patch(mem, HunkBase(i), Contents(c)), CodeOf(i, c, code));
    BlocksStep(f, pos, HUNK_BSS, Long(Low32(c.ndwords)), At(n, i, mem, code));
    ReadAt(f, pos + 4, c.ndwords);
    BssSize(c.ndwords);
  }

  lemma CodeContent(f: seq<byte>, pos: nat, n: nat, i: nat, mem: seq<byte>, code: Option<Code>, c: Content)
    requires 1 <= n <= MAX_HUNKS && i < n && |mem| == HUNK_MEMORY && ContentOk(c) && c.CodeHunk?
    requires CodeAt(f, pos, ContentBytes(c)) && StateOk(At(n, i, mem, code))
    ensures var m := Patch(mem, HunkBase(i), Contents(c));
            (AtOk(n, i, m, CodeOf(i, c, code));
             Blocks(f, pos, At(n, i, mem, code)) == Blocks(f, pos + |ContentBytes(c)|, At(n, i, m, CodeOf(i, c, code))))
  {
    hide Long, CodeAt, Blocks, HunkTable, Patch;
    AtOk(n, i, Patch(mem, HunkBase(i), Contents(c)), CodeOf(i, c, code));
    BlocksStep(f, pos, HUNK_CODE, Long(Low32(|c.data| / 4)) + c.data, At(n, i, mem, code));
    DataAt(f, pos + 4, c.data);
  }

  lemma DataContent(f: seq<byte>, pos: nat, n: nat, i: nat, mem: seq<byte>, code: Option<Code>, c: Content)
    requires 1 <= n <= MAX_HUNKS && i < n && |mem| == HUNK_MEMORY && ContentOk(c) && c.DataHunk?
    requires CodeAt(f, pos, ContentBytes(c)) && StateOk(At(n, i, mem, code))
    ensures var m := Patch(mem, HunkBase(i), Contents(c));
            (AtOk(n, i, m, CodeOf(i, c, code));
             Blocks(f, pos, At(n, i, mem, code)) == Blocks(f, pos + |ContentBytes(c)|, At(n, i, m, CodeOf(i, c, code))))
  {
    hide Long, CodeAt, Blocks, HunkTable, Patch;
    AtOk(n, i, Patch(mem, HunkBase(i), Contents(c)), CodeOf(i, c, code));
    BlocksStep(f, pos, HUNK_DATA, Long(Low32(|c.data| / 4)) + c.data, At(n, i, mem, code));
    DataAt(f, pos + 4, c.data);
  }

  // The contents of hunk i
  lemma ContentAt(f: seq<byte>, pos: nat, n: nat, i: nat, mem: seq<byte>, code: Option<Code>, c: Content,
      rest: seq<byte>)
    requires 1 <= n <= MAX_HUNKS && i < n && |mem| == HUNK_MEMORY && ContentOk(c)
    requires CodeAt(f, pos, ContentBytes(c) + rest)
    ensures StateOk(At(n, i, mem, code)) && CodeAt(f, pos + |ContentBytes(c)|, rest)
    ensures var m := Patch(mem, HunkBase(i), Contents(c));
            (AtOk(n, i, m, CodeOf(i, c, code));
             Blocks(f, pos, At(n, i, mem, code)) == Blocks(f, pos + |ContentBytes(c)|, At(n, i, m, CodeOf(i, c, code))))
  {
    hide Long, CodeAt, Blocks, Patch, At, ContentBytes, Contents, ContentOk, CodeOf;
    AtOk(n, i, mem, code);
    CodeAtSplit(f, pos, ContentBytes(c), rest);
    match c
    case BssHunk(_) => BssContent(f, pos, n, i, mem, code, c);
    case CodeHunk(_) => CodeContent(f, pos, n, i, mem, code, c);
    case DataHunk(_) => DataContent(f, pos, n, i, mem, code, c);
  }

  lemma BssSize(ndwords: nat)
    requires 4 * ndwords <= MAX_HUNK_SIZE
    ensures Low32(ndwords) == ndwords && InBytes(ndwords) == 4 * ndwords
  {
  }

  lemma DataAt(f: seq<byte>, pos: nat, data: seq<byte>)
    requires |data| % 4 == 0 && |data| < TWO32 && CodeAt(f, pos, Long(Low32(|data| / 4)) + data)
    ensures Read(f, pos) == Some(|data| / 4) && InBytes(|data| / 4) == |data|
    ensures pos + 4 + |data| <= |f| && f[pos + 4..pos + 4 + |data|] == data
  {
    hide Long, Read;
    ReadFirst(f, pos, Low32(|data| / 4), data);
  }

  // -------------------------------------------------------- whole programs

  lemma {:induction false} HunksAt(f: seq<byte>, pos: nat, n: nat, i: nat, mem: seq<byte>, code: Option<Code>,
      hs: seq<Hunk>)
    requires 1 <= n <= MAX_HUNKS && i + |hs| == n && |mem| == HUNK_MEMORY
    requires forall k :: 0 <= k < |hs| ==> HunkOk(n, hs[k])
    requires CodeAt(f, pos, HunksBytes(hs))
    ensures StateOk(At(n, i, mem, code))
    ensures Blocks(f, pos, At(n, i, mem, code)) ==
            match ProgramMem(n, mem, i, hs)
            case None => Error
            case Some(m) => (AtOk(n, n, m, code); Blocks(f, pos + |HunksBytes(hs)|, At(n, n, m, LastCode(i, hs, code))))
    decreases |hs|
  {
    hide Long, CodeAt, Blocks, Apply, ContentBytes, AuxsBytes, AuxFixups, At, Contents, Patch, CodeOf, HunkMem;
    AtOk(n, i, mem, code);
    if hs != [] {
      var h, tail := hs[0], hs[1..];
      assert HunkOk(n, h);
      var code1 := CodeOf(i, h.content, code);
      HunkAtPos(f, pos, n, i, mem, code, h, HunksBytes(tail));
      match HunkMem(n, mem, i, h)
      case None =>
      case Some(m) => HunksAt(f, pos + |ContentBytes(h.content)| + |AuxsBytes(h.aux)|, n, i + 1, m, code1, tail);
    }
  }

  lemma HunkAtPos(f: seq<byte>, pos: nat, n: nat, i: nat, mem: seq<byte>, code: Option<Code>, h: Hunk, rest: seq<byte>)
    requires 1 <= n <= MAX_HUNKS && i < n && |mem| == HUNK_MEMORY && HunkOk(n, h)
    requires CodeAt(f, pos, ContentBytes(h.content) + (AuxsBytes(h.aux) + rest))
    ensures var next := pos + |ContentBytes(h.content)| + |AuxsBytes(h.aux)|;
            && CodeAt(f, next, rest)
            && StateOk(At(n, i, mem, code))
            && Blocks(f, pos, At(n, i, mem, code)) ==
               match HunkMem(n, mem, i, h)
               case None => Error
               case Some(m) => (AtOk(n, i + 1, m, CodeOf(i, h.content, code));
                                Blocks(f, next, At(n, i + 1, m, CodeOf(i, h.content, code))))
  {
    hide Long, CodeAt, Blocks, Apply, ContentBytes, AuxsBytes, AuxFixups, At, Contents, Patch, CodeOf;
    AtOk(n, i, mem, code);
    ContentAt(f, pos, n, i, mem, code, h.content, AuxsBytes(h.aux) + rest);
    var m := Patch(mem, HunkBase(i), Contents(h.content));
    AuxsAt(f, pos + |ContentBytes(h.content)|, n, i, m, CodeOf(i, h.content, code), h.aux, rest);
  }

  lemma TableStep(i: nat)
    requires i < MAX_HUNKS
    ensures HunkTable(i)[i := Some(HunkBase(i))] == HunkTable(i + 1)
  {
  }

  lemma {:induction false} SizesAt(f: seq<byte>, pos: nat, n: nat, i: nat, hs: seq<Hunk>, st: State, rest: seq<byte>)
    requires 1 <= n <= MAX_HUNKS && i + |hs| == n && forall k :: 0 <= k < |hs| ==> ContentOk(hs[k].content)
    requires StateOk(st) && st.hunks == HunkTable(i)
    requires CodeAt(f, pos, SizesBytes(hs) + rest)
    ensures CodeAt(f, pos + |SizesBytes(hs)|, rest)
    ensures Sizes(f, pos, i, n - 1, HunkBase(i), st) == Done(st.(hunks := HunkTable(n)), pos + |SizesBytes(hs)|)
    decreases |hs|
  {
    hide Long, CodeAt, Read, HunkTable;
    CodeAtSplit(f, pos, SizesBytes(hs), rest);
    if hs != [] {
      var size := Size(hs[0].content) / 4;
      assert ContentOk(hs[0].content);
      assert SizesBytes(hs) + rest == Long(Low32(size)) + (SizesBytes(hs[1..]) + rest);
      ReadFirst(f, pos, Low32(size), SizesBytes(hs[1..]) + rest);
      TableStep(i);
      SizesAt(f, pos + 4, n, i + 1, hs[1..], st.(hunks := HunkTable(i + 1)), rest);
    }
  }

  lemma StartOk()
    ensures StateOk(START) && START.hunks == HunkTable(0) && START.num == 0 && START.code == None
  {
  }

  lemma HeaderAt(p: seq<Hunk>)
    requires ProgramOk(p)
    ensures StateOk(START) && StateOk(At(|p|, 0, Zeros(HUNK_MEMORY), None))
    ensures CodeAt(Serialize(p), 20 + |SizesBytes(p)|, HunksBytes(p))
    ensures Blocks(Serialize(p), 0, START)
            == Blocks(Serialize(p), 20 + |SizesBytes(p)|, At(|p|, 0, Zeros(HUNK_MEMORY), None))
  {
    hide Long, CodeAt, Blocks, HunkTable, SizesBytes, HunksBytes, Sizes, HunkOk;
    var f, n := Serialize(p), |p|;
    StartOk();
    AtOk(n, 0, Zeros(HUNK_MEMORY), None);
    var r5 := SizesBytes(p) + HunksBytes(p);
    var r4 := Long(Low32(n - 1)) + r5;
    var r3 := Long(0) + r4;
    var r2 := Long(Low32(n)) + r3;
    assert CodeAt(f, 0, Long(HUNK_HEADER) + (Long(0) + r2)) by { WholeFile(f); }
    BlocksStep(f, 0, HUNK_HEADER, Long(0) + r2, START);
    ReadFirst(f, 4, 0, r2);
    ReadFirst(f, 8, Low32(n), r3);
    ReadFirst(f, 12, 0, r4);
    ReadFirst(f, 16, Low32(n - 1), r5);
    HeaderIs(f, p);
  }

  lemma AllContentsOk(p: seq<Hunk>)
    requires ProgramOk(p)
    ensures forall k :: 0 <= k < |p| ==> ContentOk(p[k].content)
  {
    forall k | 0 <= k < |p|
      ensures ContentOk(p[k].content)
    {
      assert HunkOk(|p|, p[k]);
    }
  }

  lemma WholeFile(f: seq<byte>)
    ensures CodeAt(f, 0, f)
  {
  }

  lemma HeaderIs(f: seq<byte>, p: seq<Hunk>)
    requires ProgramOk(p) && StateOk(START)
    requires Read(f, 4) == Some(0) && Read(f, 12) == Some(0) && Read(f, 16) == Some(|p| - 1)
    requires CodeAt(f, 20, SizesBytes(p) + HunksBytes(p))
    ensures CodeAt(f, 20 + |SizesBytes(p)|, HunksBytes(p))
    ensures HeaderBlock(f, 4, START) == Done(At(|p|, 0, Zeros(HUNK_MEMORY), None), 20 + |SizesBytes(p)|)
  {
    hide CodeAt, HunkTable, SizesBytes, HunksBytes, Sizes;
    StartOk();
    var st := START.(last := Some(|p| - 1), mem := Zeros(HUNK_MEMORY));
    AllContentsOk(p);
    SizesAt(f, 20, |p|, 0, p, st, HunksBytes(p));
  }

  // Loading the file of a program: the loader gives up exactly where a relocation cannot be
  // applied. Otherwise it ends at the end of the file, with the program's memory, having passed all
  // hunks, and with the last code hunk as the code.
  lemma LoadSerialized(p: seq<Hunk>)
    requires ProgramOk(p)
    ensures StateOk(START)
    ensures Blocks(Serialize(p), 0, START) ==
            match ProgramMem(|p|, Zeros(HUNK_MEMORY), 0, p)
            case None => Error
            case Some(m) => Done(At(|p|, |p|, m, LastCode(0, p, None)), |Serialize(p)|)
  {
    hide Long, Blocks, SizesBytes, HunksBytes, ProgramMem, LastCode, HunkOk;
    var n, f := |p|, Serialize(p);
    AllContentsOk(p);
    HeaderAt(p);
    HunksAt(f, 20 + |SizesBytes(p)|, n, 0, Zeros(HUNK_MEMORY), None, p);
    match ProgramMem(n, Zeros(HUNK_MEMORY), 0, p)
    case None =>
    case Some(m) =>
      AtOk(n, n, m, LastCode(0, p, None));
      AtEnd(f, At(n, n, m, LastCode(0, p, None)));
  }

  lemma AtEnd(f: seq<byte>, st: State)
    requires StateOk(st)
    ensures Blocks(f, |f|, st) == Done(st, |f|)
  {
  }
}
