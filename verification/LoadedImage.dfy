/** Where the hunks of a loaded program are and what they contain. */
module LoadedImage {
  import opened Base
  import opened Loader
  import opened Relocation
  import opened HunkFormat
  import opened RoundTrip

  // A hunk in its place, before relocation, in otherwise empty memory
  function Unrelocated(i: nat, c: Content): (m: seq<byte>)
    requires i < MAX_HUNKS && ContentOk(c)
    ensures |m| == HUNK_MEMORY
  {
    Patch(Zeros(HUNK_MEMORY), HunkBase(i), Contents(c))
  }

  predicate Good(n: nat, i: nat, h: Hunk) { i < MAX_HUNKS && HunkOk(n, h) && NoOverlap(AuxFixups(i, h.aux)) }

  // Some relocation of hunk i finds a long word that is too large.
  predicate Bad(n: nat, i: nat, h: Hunk)
    requires Good(n, i, h)
  {
    AuxInHunk(n, i, h.aux);
    FixupsInMemory(i, AuxFixups(i, h.aux), Unrelocated(i, h.content));
    TooLarge(Unrelocated(i, h.content), AuxFixups(i, h.aux))
  }

  // In the 64 KB of hunk i, memory m is a with exactly the listed long words relocated.
  predicate RelocatedArea(a: seq<byte>, fs: seq<Fixup>, m: seq<byte>, i: nat)
    requires |a| == |m| == HUNK_MEMORY && InMemory(a, fs) && i < MAX_HUNKS
  {
    && (forall k :: 0 <= k < |fs| ==> m[fs[k].at..fs[k].at + 4] == Fixed(a, fs[k]))
    && (forall x :: HunkBase(i) <= x < HunkBase(i + 1) && !Covered(fs, x) ==> m[x] == a[x])
  }

  // Hunk i is in its place, relocated.
  predicate Placed(n: nat, m: seq<byte>, i: nat, h: Hunk)
    requires Good(n, i, h) && |m| == HUNK_MEMORY
  {
    AuxInHunk(n, i, h.aux);
    FixupsInMemory(i, AuxFixups(i, h.aux), Unrelocated(i, h.content));
    RelocatedArea(Unrelocated(i, h.content), AuxFixups(i, h.aux), m, i)
  }

  predicate ZeroFrom(m: seq<byte>, lo: nat) { forall x :: lo <= x < |m| ==> m[x] == 0 }

  predicate SamePrefix(a: seq<byte>, b: seq<byte>, n: nat) {
    n <= |a| && n <= |b| && forall x :: 0 <= x < n ==> a[x] == b[x]
  }

  // In its own 64 KB, hunk i finds what it would find in empty memory.
  lemma SameArea(mem: seq<byte>, i: nat, c: Content)
    requires i < MAX_HUNKS && |mem| == HUNK_MEMORY && ContentOk(c) && ZeroFrom(mem, HunkBase(i))
    ensures var a, b := Patch(mem, HunkBase(i), Contents(c)), Unrelocated(i, c);
            && (forall x :: HunkBase(i) <= x < |mem| ==> a[x] == b[x])
            && (forall x :: 0 <= x < HunkBase(i) ==> a[x] == mem[x])
            && (forall x :: HunkBase(i + 1) <= x < |mem| ==> a[x] == 0)
  {
  }

  lemma SameFixed(a: seq<byte>, b: seq<byte>, f: Fixup, lo: nat)
    requires |a| == |b| && lo <= f.at && f.at + 4 <= |a| && forall x :: lo <= x < |a| ==> a[x] == b[x]
    ensures DwordAt(a, f.at) == DwordAt(b, f.at) && Fixed(a, f) == Fixed(b, f)
  {
    hide BE32;
  }

  lemma SameBad(a: seq<byte>, b: seq<byte>, fs: seq<Fixup>, lo: nat)
    requires |a| == |b| && InMemory(a, fs) && InMemory(b, fs)
    requires forall k :: 0 <= k < |fs| ==> lo <= fs[k].at
    requires forall x :: lo <= x < |a| ==> a[x] == b[x]
    ensures TooLarge(a, fs) <==> TooLarge(b, fs)
    ensures forall k :: 0 <= k < |fs| ==> Fixed(a, fs[k]) == Fixed(b, fs[k])
  {
    hide DwordAt, Fixed;
    forall k | 0 <= k < |fs|
      ensures DwordAt(a, fs[k].at) == DwordAt(b, fs[k].at) && Fixed(a, fs[k]) == Fixed(b, fs[k])
    {
      SameFixed(a, b, fs[k], lo);
    }
  }

  // Loading hunk i, with nothing behind it yet
  lemma HunkPlaced(n: nat, mem: seq<byte>, i: nat, h: Hunk)
    requires Good(n, i, h) && |mem| == HUNK_MEMORY && ZeroFrom(mem, HunkBase(i))
    ensures HunkMem(n, mem, i, h).None? <==> Bad(n, i, h)
    ensures HunkMem(n, mem, i, h).Some? ==>
              var m := HunkMem(n, mem, i, h).value;
              Placed(n, m, i, h) && SamePrefix(m, mem, HunkBase(i)) && ZeroFrom(m, HunkBase(i + 1))
  {
    hide Apply, Unrelocated, Contents, Patch, TooLarge, Fixed, AuxFixups, HunkOk, NoOverlap;
    var c, fs := h.content, AuxFixups(i, h.aux);
    HunkContentOk(n, h);
    var a, b := Patch(mem, HunkBase(i), Contents(c)), Unrelocated(i, c);
    AuxInHunk(n, i, h.aux);
    FixupsInMemory(i, fs, a);
    FixupsInMemory(i, fs, b);
    SameArea(mem, i, c);
    SameBad(a, b, fs, HunkBase(i));
    ApplyExact(a, fs);
  }

  lemma HunkContentOk(n: nat, h: Hunk)
    requires HunkOk(n, h)
    ensures ContentOk(h.content) && forall k :: 0 <= k < |h.aux| ==> AuxOk(n, h.aux[k])
  {
  }

  // Memory that differs behind hunk i only
  lemma StillPlaced(n: nat, m: seq<byte>, m': seq<byte>, i: nat, h: Hunk)
    requires Good(n, i, h) && |m| == |m'| == HUNK_MEMORY && Placed(n, m, i, h) && SamePrefix(m', m, HunkBase(i + 1))
    ensures Placed(n, m', i, h)
  {
    hide Unrelocated, Fixed, AuxFixups, HunkOk, NoOverlap;
    var fs := AuxFixups(i, h.aux);
    HunkContentOk(n, h);
    AuxInHunk(n, i, h.aux);
    FixupsInMemory(i, fs, m);
    forall k | 0 <= k < |fs|
      ensures m'[fs[k].at..fs[k].at + 4] == m[fs[k].at..fs[k].at + 4]
    {
      assert InHunk(i, fs[k]);
    }
  }

  predicate AllGood(n: nat, i: nat, hs: seq<Hunk>) { forall k :: 0 <= k < |hs| ==> Good(n, i + k, hs[k]) }

  lemma GoodOk(n: nat, i: nat, hs: seq<Hunk>)
    requires AllGood(n, i, hs)
    ensures forall k :: 0 <= k < |hs| ==> HunkOk(n, hs[k])
    ensures hs != [] ==> AllGood(n, i + 1, hs[1..])
  {
    hide HunkOk, NoOverlap;
    forall k | 0 <= k < |hs|
      ensures HunkOk(n, hs[k])
    {
      assert Good(n, i + k, hs[k]);
    }
    forall k | 0 <= k < |hs| - 1
      ensures Good(n, (i + 1) + k, hs[1..][k])
    {
      assert Good(n, i + (k + 1), hs[k + 1]);
    }
  }

  // Some hunk of hs, the first of which has number i, has a bad relocation.
  predicate AnyBad(n: nat, i: nat, hs: seq<Hunk>)
    requires AllGood(n, i, hs)
  {
    exists k :: 0 <= k < |hs| && Bad(n, i + k, hs[k])
  }

  predicate AllIn(n: nat, m: seq<byte>, i: nat, hs: seq<Hunk>)
    requires |m| == HUNK_MEMORY && AllGood(n, i, hs)
  {
    forall k :: 0 <= k < |hs| ==> Placed(n, m, i + k, hs[k])
  }

  lemma AnyBadTail(n: nat, i: nat, hs: seq<Hunk>)
    requires hs != [] && AllGood(n, i, hs)
    requires AllGood(n, i + 1, hs[1..])
    ensures Good(n, i, hs[0])
    ensures AnyBad(n, i, hs) <==> Bad(n, i, hs[0]) || AnyBad(n, i + 1, hs[1..])
  {
    hide Good, Bad;
    assert Good(n, i + 0, hs[0]);
    var tail := hs[1..];
    if k :| 0 <= k < |tail| && Bad(n, (i + 1) + k, tail[k]) {
      assert tail[k] == hs[k + 1] && Bad(n, i + (k + 1), hs[k + 1]);
    }
    if k :| 0 <= k < |hs| && Bad(n, i + k, hs[k]) {
      if k > 0 {
        assert tail[k - 1] == hs[k] && Bad(n, (i + 1) + (k - 1), tail[k - 1]);
      }
    }
    if Bad(n, i, hs[0]) {
      assert Bad(n, i + 0, hs[0]);
    }
  }

  lemma AllInTail(n: nat, m: seq<byte>, i: nat, hs: seq<Hunk>)
    requires |m| == HUNK_MEMORY && hs != [] && AllGood(n, i, hs)
    requires AllGood(n, i + 1, hs[1..])
    requires Good(n, i, hs[0]) && Placed(n, m, i, hs[0]) && AllIn(n, m, i + 1, hs[1..])
    ensures AllIn(n, m, i, hs)
  {
    hide Good, Placed;
    var tail := hs[1..];
    forall k | 0 <= k < |hs|
      ensures Placed(n, m, i + k, hs[k])
    {
      if k > 0 {
        assert tail[k - 1] == hs[k] && Placed(n, m, (i + 1) + (k - 1), tail[k - 1]);
      }
    }
  }

  lemma {:induction false} AllPlaced(n: nat, mem: seq<byte>, i: nat, hs: seq<Hunk>)
    requires |mem| == HUNK_MEMORY && i + |hs| <= MAX_HUNKS && ZeroFrom(mem, HunkBase(i))
    requires AllGood(n, i, hs)
    ensures forall k :: 0 <= k < |hs| ==> HunkOk(n, hs[k])
    ensures ProgramMem(n, mem, i, hs).None? <==> AnyBad(n, i, hs)
    ensures ProgramMem(n, mem, i, hs).Some? ==>
              var m := ProgramMem(n, mem, i, hs).value;
              SamePrefix(m, mem, HunkBase(i)) && ZeroFrom(m, HunkBase(i + |hs|)) && AllIn(n, m, i, hs)
    decreases |hs|
  {
    hide Good, Bad, Placed, HunkMem, AnyBad, AllIn, HunkOk;
    GoodOk(n, i, hs);
    if hs == [] {
      NoneBad(n, mem, i);
    } else {
      AnyBadTail(n, i, hs);
      HunkPlaced(n, mem, i, hs[0]);
      if HunkMem(n, mem, i, hs[0]).Some? {
        var m1 := HunkMem(n, mem, i, hs[0]).value;
        AllPlaced(n, m1, i + 1, hs[1..]);
        if ProgramMem(n, m1, i + 1, hs[1..]).Some? {
          var m := ProgramMem(n, m1, i + 1, hs[1..]).value;
          StillPlaced(n, m1, m, i, hs[0]);
          AllInTail(n, m, i, hs);
        }
      }
    }
  }

  lemma NoneBad(n: nat, mem: seq<byte>, i: nat)
    requires |mem| == HUNK_MEMORY
    ensures !AnyBad(n, i, []) && AllIn(n, mem, i, [])
  {
  }

  predicate GoodProgram(p: seq<Hunk>) { 1 <= |p| <= MAX_HUNKS && AllGood(|p|, 0, p) }

  // The program is in memory, the rest of the hunk memory is zero, and the whole file has been read.
  predicate InPlace(p: seq<Hunk>, r: Result)
    requires GoodProgram(p)
  {
    && r.Done? && r.pos == |Serialize(p)| && r.st.num == |p| && |r.st.mem| == HUNK_MEMORY
    && AllIn(|p|, r.st.mem, 0, p) && ZeroFrom(r.st.mem, HunkBase(|p|))
  }

  // What a relocation makes of a long word v of hunk i's contents
  lemma RelocatedLong(n: nat, m: seq<byte>, i: nat, h: Hunk, k: nat, p: nat, v: u32)
    requires Good(n, i, h) && |m| == HUNK_MEMORY && Placed(n, m, i, h)
    requires k < |AuxFixups(i, h.aux)| && AuxFixups(i, h.aux)[k].at == 65536 * i + p
    requires CodeAt(Contents(h.content), p, Long(v))
    ensures var w: int := v;
            CodeAt(m, 65536 * i + p, Long((w + AuxFixups(i, h.aux)[k].add) % TWO32))
  {
    hide AuxFixups, Long, BE32, Contents, DwordAt;
    var a, c := Unrelocated(i, h.content), Contents(h.content);
    var f := AuxFixups(i, h.aux)[k];
    AuxInHunk(n, i, h.aux);
    FixupsInMemory(i, AuxFixups(i, h.aux), a);
    ContentInMemory(i, h.content, p, Long(v));
    ReadAt(a, f.at, v);
    LongsAgree(Low32(DwordAt(a, f.at) + f.add));
    assert m[f.at..f.at + 4] == Fixed(a, f);
  }

  lemma ContentInMemory(i: nat, c: Content, p: nat, b: seq<byte>)
    requires i < MAX_HUNKS && ContentOk(c) && CodeAt(Contents(c), p, b)
    ensures CodeAt(Unrelocated(i, c), 65536 * i + p, b)
  {
    var at, d := HunkBase(i), Contents(c);
    var a := Unrelocated(i, c);
    PatchAt(Zeros(HUNK_MEMORY), at, d);
    assert a[at..at + |d|] == d;
    SubSlice(a, at, at + |d|, p, p + |b|);
  }

  lemma LongsAgree(v: u32)
    ensures BE32(v) == Long(v)
  {
  }

  // For every program whose relocations do not overlap: its file is loaded, except when one of
  // them finds a long word that is too large. Then hunk i lies at 0x100000 + i * 64 KB,
  // with each listed long word increased by the address of the hunk it refers to and all others
  // unchanged, and the rest of the memory is zero.
  lemma LoadedProgram(p: seq<Hunk>, st: State)
    requires GoodProgram(p) && StateOk(st) && st == START
    ensures var r := Blocks(Serialize(p), 0, st); if AnyBad(|p|, 0, p) then r == Error else InPlace(p, r)
  {
    hide Good, Blocks, Serialize, ProgramMem, AnyBad, AllIn, HunkOk, LastCode;
    GoodOk(|p|, 0, p);
    AllContentsOk(p);
    LoadSerialized(p);
    AllPlaced(|p|, Zeros(HUNK_MEMORY), 0, p);
  }
}
