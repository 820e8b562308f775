/** What each type of block does to the loader's state, whatever state it comes in; types are the
    numbers of the AmigaDOS hunk format. */
module BlockEffects {
  import opened Base
  import opened M68k
  import opened Loader
  import opened HunkFormat
  import opened RoundTrip

  // The block of the given type is next in the file, and going on behind it in state st at next.
  predicate Leads(f: seq<byte>, pos: nat, st: State, st': State, next: nat)
    requires StateOk(st)
  {
    StateOk(st') && Blocks(f, pos, st) == Blocks(f, next, st')
  }

  // The hunk that is being loaded starts here in the hunk memory.
  predicate Current(st: State, at: nat)
    requires StateOk(st)
  {
    st.num < 4 && st.hunks[st.num] == Some(at)
  }

  lemma Reading(f: seq<byte>, pos: nat, v: u32)
    requires CodeAt(f, pos, Long(v))
    ensures Read(f, pos) == Some(v) && pos + 4 <= |f|
  {
    hide Long, Read;
    ReadAt(f, pos, v);
  }

  // 1001, code: the bytes that follow the number of long words are copied to the start of the hunk,
  // which becomes the code, if at most 65532.
  lemma CodeBlock(f: seq<byte>, pos: nat, st: State, at: nat, data: seq<byte>)
    requires StateOk(st) && Current(st, at) && |data| % 4 == 0 && |data| < TWO32 && at + |data| <= 0x4_0000
    requires CodeAt(f, pos, Long(1001) + Long(|data| / 4) + data)
    ensures var mem := st.mem[..at] + data + st.mem[at + |data|..];
            if |data| > 65532 then Blocks(f, pos, st) == Error
            else Leads(f, pos, st, st.(mem := mem, code := Some(Code(0x10_0000 + at, |data|))), pos + 8 + |data|)
  {
    hide Long, Blocks, Read;
    Parts(f, pos, 1001, |data| / 4, data);
    BlocksRead(f, pos, 1001, st);
  }

  // 1002, data: the same, but the code is what it was.
  lemma DataBlock(f: seq<byte>, pos: nat, st: State, at: nat, data: seq<byte>)
    requires StateOk(st) && Current(st, at) && |data| % 4 == 0 && |data| < TWO32 && at + |data| <= 0x4_0000
    requires CodeAt(f, pos, Long(1002) + Long(|data| / 4) + data)
    ensures var mem := st.mem[..at] + data + st.mem[at + |data|..];
            Leads(f, pos, st, st.(mem := mem), pos + 8 + |data|)
  {
    hide Long, Blocks, Read;
    Parts(f, pos, 1002, |data| / 4, data);
    BlocksRead(f, pos, 1002, st);
  }

  // 1003, BSS: zeros from the start of the hunk on
  lemma BssBlock(f: seq<byte>, pos: nat, st: State, at: nat, n: nat)
    requires StateOk(st) && Current(st, at) && at + 4 * n <= 0x4_0000
    requires CodeAt(f, pos, Long(1003) + Long(n))
    ensures var mem := st.mem[..at] + seq(4 * n, _ => 0) + st.mem[at + 4 * n..];
            Leads(f, pos, st, st.(mem := mem), pos + 8)
  {
    hide Long, Blocks, Read;
    assert Long(1003) + Long(n) + [] == Long(1003) + Long(n);
    Parts(f, pos, 1003, n, []);
    BlocksRead(f, pos, 1003, st);
  }

  // 1009, debug data: skipped
  lemma DebugBlock(f: seq<byte>, pos: nat, st: State, data: seq<byte>)
    requires StateOk(st) && |data| % 4 == 0 && |data| < TWO32
    requires CodeAt(f, pos, Long(1009) + Long(|data| / 4) + data)
    ensures Leads(f, pos, st, st, pos + 8 + |data|)
  {
    hide Long, Blocks, Read;
    Parts(f, pos, 1009, |data| / 4, data);
    BlocksRead(f, pos, 1009, st);
  }

  // 1010, end of a hunk: the next one
  lemma EndBlock(f: seq<byte>, pos: nat, st: State)
    requires StateOk(st) && CodeAt(f, pos, Long(1010))
    ensures var num: int := st.num; Leads(f, pos, st, st.(num := (num + 1) % TWO32), pos + 4)
  {
    hide Long, Blocks, Read;
    Reading(f, pos, 1010);
    BlocksRead(f, pos, 1010, st);
  }

  // Any other number is refused.
  lemma UnknownBlock(f: seq<byte>, pos: nat, st: State, t: u32)
    requires StateOk(st) && CodeAt(f, pos, Long(t)) && t !in {1001, 1002, 1003, 1004, 1008, 1009, 1010, 1011}
    ensures Blocks(f, pos, st) == Error
  {
    hide Long, Blocks, Read;
    Reading(f, pos, t);
    BlocksRead(f, pos, t, st);
  }

  lemma BlocksRead(f: seq<byte>, pos: nat, t: u32, st: State)
    requires StateOk(st) && Read(f, pos) == Some(t) && pos + 4 <= |f|
    ensures Blocks(f, pos, st) ==
            match Block(f, t, pos + 4, st) case Done(st', pos') => Blocks(f, pos', st') case r => r
  {
    hide Block;
  }

  // A block type, a number and some bytes
  lemma Parts(f: seq<byte>, pos: nat, t: u32, n: u32, data: seq<byte>)
    requires CodeAt(f, pos, Long(t) + Long(n) + data)
    ensures Read(f, pos) == Some(t) && Read(f, pos + 4) == Some(n)
    ensures pos + 8 + |data| <= |f| && f[pos + 8..pos + 8 + |data|] == data
  {
    hide Long, Read, CodeAt;
    assert Long(t) + (Long(n) + data) == Long(t) + Long(n) + data;
    ReadFirst(f, pos, t, Long(n) + data);
    ReadFirst(f, pos + 4, n, data);
    Slice(f, pos + 8, data);
  }

  lemma Slice(f: seq<byte>, pos: nat, b: seq<byte>)
    requires CodeAt(f, pos, b)
    ensures pos + |b| <= |f| && f[pos..pos + |b|] == b
  {
  }

  // 1008, symbols: skipped
  lemma SymbolBlock(f: seq<byte>, pos: nat, st: State, ss: seq<Symbol>)
    requires StateOk(st) && forall k :: 0 <= k < |ss| ==> SymbolOk(ss[k])
    requires CodeAt(f, pos, Long(1008) + SymbolsBytes(ss))
    ensures Leads(f, pos, st, st, pos + 4 + |SymbolsBytes(ss)|)
  {
    hide Long, Blocks, Read, CodeAt, SkipSymbols, SymbolsBytes;
    ReadFirst(f, pos, 1008, SymbolsBytes(ss));
    SymbolsAt(f, pos + 4, ss);
    ReadInFile(f, pos);
    BlocksRead(f, pos, 1008, st);
  }

  // A name of n long words and its value are skipped, counted modulo 2 to the 30 long words.
  lemma SymbolSkipped(f: seq<byte>, pos: nat, n: u32)
    requires CodeAt(f, pos, Long(n)) && n != 0
    ensures var k: int := n; SkipSymbols(f, pos) == SkipSymbols(f, pos + 4 + 4 * ((k + 1) % 0x4000_0000))
  {
    hide Long, Read;
    Reading(f, pos, n);
    var k: int := n;
    assert (4 * (k + 1)) % 0x1_0000_0000 == 4 * ((k + 1) % 0x4000_0000) by { TimesFour(k + 1); }
  }

  lemma TimesFour(x: nat)
    ensures (4 * x) % 0x1_0000_0000 == 4 * (x % 0x4000_0000)
  {
    var q, r := x / 0x4000_0000, x % 0x4000_0000;
    assert x == 0x4000_0000 * q + r && 4 * x == 0x1_0000_0000 * q + 4 * r;
  }

  // 1004, relocations: a group for a hunk that the program does not have is refused.
  lemma RelocationRefused(f: seq<byte>, pos: nat, st: State, count: u32, ref: u32)
    requires StateOk(st) && st.last.Some? && count != 0 && ref > st.last.value
    requires CodeAt(f, pos, Long(1004) + Long(count) + Long(ref))
    ensures Blocks(f, pos, st) == Error
  {
    hide Long, Blocks, Read, DwordAt;
    Parts(f, pos, 1004, count, Long(ref));
    assert CodeAt(f, pos + 8, Long(ref));
    Reading(f, pos + 8, ref);
    DwordRead(f, pos + 8);
    BlocksRead(f, pos, 1004, st);
  }

  // One relocation: the address of hunk `ref` is added to a long word of the hunk being loaded.
  lemma RelocationStep(st: State, at: nat, ref: u32, target: nat, p: u32, v: u32)
    requires StateOk(st) && Current(st, at) && ref < 4 && st.hunks[ref] == Some(target)
    requires at + p + 4 <= 0x4_0000 && CodeAt(st.mem, at + p, Long(v))
    ensures var w: int, q := v, at + p;
            Fix(st, ref, p)
            == if v > 0xffef_ffff then Error
               else Done(st.(mem := st.mem[..q] + Long((w + 0x10_0000 + target) % TWO32) + st.mem[q + 4..]), 0)
  {
    hide Read;
    Reading(st.mem, at + p, v);
    DwordRead(st.mem, at + p);
  }

  lemma DwordRead(f: seq<byte>, pos: nat)
    requires pos + 4 <= |f|
    ensures Read(f, pos) == Some(DwordAt(f, pos))
  {
  }

  // ------------------------------------------------------------ the header

  function SizeLongs(sizes: seq<nat>): seq<byte>
    requires forall k :: 0 <= k < |sizes| ==> sizes[k] <= 16384
  {
    if sizes == [] then [] else Long(sizes[0]) + SizeLongs(sizes[1..])
  }

  // Hunks `first` up to `last` have got blocks of 64 KB, one after the other.
  predicate Laid(hunks: seq<Option<nat>>, hunks': seq<Option<nat>>, first: nat, last: nat, address: nat) {
    && |hunks| == |hunks'| == 4
    && forall k: nat :: k < 4 ==>
                          hunks'[k] == if first <= k <= last then Some(address + 65536 * (k - first)) else hunks[k]
  }

  lemma {:induction false} SizesLaid(f: seq<byte>, pos: nat, i: nat, last: u32, address: nat, st: State,
                                     sizes: seq<nat>)
      returns (hunks: seq<Option<nat>>)
    requires StateOk(st) && i <= last + 1 && last < 4 && |sizes| == last + 1 - i && address <= 65536 * i
    requires forall k :: 0 <= k < |sizes| ==> sizes[k] <= 16384
    requires CodeAt(f, pos, SizeLongs(sizes))
    ensures Laid(st.hunks, hunks, i, last, address)
    ensures Sizes(f, pos, i, last, address, st) == Done(st.(hunks := hunks), pos + 4 * |sizes|)
    decreases |sizes|
  {
    hide Long, CodeAt, Read;
    hunks := st.hunks;
    if i <= last {
      ReadFirst(f, pos, sizes[0], SizeLongs(sizes[1..]));
      var st1 := st.(hunks := st.hunks[i := Some(address)]);
      hunks := SizesLaid(f, pos + 4, i + 1, last, address + 65536, st1, sizes[1..]);
    }
  }

  // 1011, the header: hunk memory is mapped afresh, and each hunk announced gets its 64 KB there.
  lemma HeaderEffect(f: seq<byte>, pos: nat, st: State, total: u32, first: u32, last: u32, sizes: seq<nat>)
      returns (hunks: seq<Option<nat>>)
    requires StateOk(st) && first <= last < 4 && |sizes| == last + 1 - first
    requires forall k :: 0 <= k < |sizes| ==> sizes[k] <= 16384
    requires CodeAt(f, pos, Long(1011) + (Long(0) + (Long(total) + (Long(first) + (Long(last) + SizeLongs(sizes))))))
    ensures Laid(st.hunks, hunks, first, last, 0)
    ensures Leads(f, pos, st, st.(hunks := hunks, last := Some(last), mem := seq(0x4_0000, _ => 0)),
                  pos + 20 + 4 * |sizes|)
  {
    hide Long, CodeAt, Read, Blocks, SizeLongs, DwordAt, Sizes;
    var r4 := Long(last) + SizeLongs(sizes);
    var r3 := Long(first) + r4;
    var r2 := Long(total) + r3;
    ReadFirst(f, pos, 1011, Long(0) + r2);
    ReadFirst(f, pos + 4, 0, r2);
    ReadFirst(f, pos + 8, total, r3);
    ReadFirst(f, pos + 12, first, r4);
    ReadFirst(f, pos + 16, last, SizeLongs(sizes));
    ReadInFile(f, pos + 16);
    DwordRead(f, pos + 12);
    DwordRead(f, pos + 16);
    var st1 := st.(last := Some(last), mem := seq(0x4_0000, _ => 0));
    hunks := SizesLaid(f, pos + 20, first, last, 0, st1, sizes);
    BlocksRead(f, pos, 1011, st);
  }

  // A header is refused if it names resident libraries, or else if it announces more than four hunks.
  lemma HeaderRefused(f: seq<byte>, pos: nat, st: State, resident: u32, total: u32, first: u32, last: u32)
    requires StateOk(st) && CodeAt(f, pos, Long(1011) + (Long(resident) + (Long(total) + (Long(first) + Long(last)))))
    requires var from: int, to: int := first, last; resident != 0 || (to - from + 1) % TWO32 > 4
    ensures Blocks(f, pos, st) == Error
  {
    hide Long, CodeAt, Read, Blocks, DwordAt, Sizes;
    var r3 := Long(first) + Long(last);
    var r2 := Long(total) + r3;
    ReadFirst(f, pos, 1011, Long(resident) + r2);
    ReadFirst(f, pos + 4, resident, r2);
    ReadFirst(f, pos + 8, total, r3);
    ReadFirst(f, pos + 12, first, Long(last));
    Reading(f, pos + 16, last);
    DwordRead(f, pos + 12);
    DwordRead(f, pos + 16);
    BlocksRead(f, pos, 1011, st);
  }

  // A file that ends inside a block type is not loaded.
  lemma Truncated(f: seq<byte>, pos: nat, st: State)
    requires StateOk(st) && pos < |f| < pos + 4
    ensures Blocks(f, pos, st) == Fault
  {
  }

  lemma ReadInFile(f: seq<byte>, pos: nat)
    requires Read(f, pos).Some?
    ensures pos + 4 <= |f|
  {
  }
}
