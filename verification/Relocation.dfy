/** What a list of relocations does to memory, whatever their order. */
module Relocation {
  import opened Base
  import opened M68k
  import opened Loader

  // Add a hunk's address to the long word at a position.
  datatype Fixup = Fixup(at: nat, add: nat)

  // The largest offset to which the address of the hunk memory can be added
  const LIMIT := 0xffef_ffff

  predicate InMemory(m: seq<byte>, fs: seq<Fixup>) { forall i :: 0 <= i < |fs| ==> fs[i].at + 4 <= |m| }

  // One after the other; nothing if one of them finds a long word that is too large
  function Apply(m: seq<byte>, fs: seq<Fixup>): (r: Option<seq<byte>>)
    requires InMemory(m, fs)
    ensures r.Some? ==> |r.value| == |m|
    decreases |fs|
  {
    if fs == [] then Some(m)
    else if DwordAt(m, fs[0].at) > LIMIT then None
    else Apply(One(m, fs[0]), fs[1..])
  }

  function One(m: seq<byte>, f: Fixup): (r: seq<byte>)
    requires f.at + 4 <= |m|
    ensures |r| == |m|
  {
    Patch(m, f.at, Fixed(m, f))
  }

  // The relocated long word
  function Fixed(m: seq<byte>, f: Fixup): (b: seq<byte>)
    requires f.at + 4 <= |m|
    ensures |b| == 4
  {
    var offset: int := DwordAt(m, f.at);
    BE32(Low32(offset + f.add))
  }

  predicate Apart(f: Fixup, g: Fixup) { f.at + 4 <= g.at || g.at + 4 <= f.at }

  predicate NoOverlap(fs: seq<Fixup>) { forall i, j :: 0 <= i < j < |fs| ==> Apart(fs[i], fs[j]) }

  predicate Covered(fs: seq<Fixup>, x: int) { exists i :: 0 <= i < |fs| && fs[i].at <= x < fs[i].at + 4 }

  predicate TooLarge(m: seq<byte>, fs: seq<Fixup>)
    requires InMemory(m, fs)
  {
    exists i :: 0 <= i < |fs| && DwordAt(m, fs[i].at) > LIMIT
  }

  // Memory m' is m with exactly the listed long words relocated.
  predicate Relocated(m: seq<byte>, fs: seq<Fixup>, m': seq<byte>)
    requires InMemory(m, fs)
  {
    && |m'| == |m|
    && (forall i :: 0 <= i < |fs| ==> m'[fs[i].at..fs[i].at + 4] == Fixed(m, fs[i]))
    && (forall x :: 0 <= x < |m| && !Covered(fs, x) ==> m'[x] == m[x])
  }

  // A fixup does not change what others, apart from it, find and write.
  lemma OneElsewhere(m: seq<byte>, f: Fixup, g: Fixup)
    requires f.at + 4 <= |m| && g.at + 4 <= |m| && Apart(f, g)
    ensures DwordAt(One(m, f), g.at) == DwordAt(m, g.at) && Fixed(One(m, f), g) == Fixed(m, g)
    ensures One(m, f)[g.at..g.at + 4] == m[g.at..g.at + 4]
  {
    hide BE32;
    PatchElsewhere(m, f.at, Fixed(m, f), g.at, g.at + 4);
    DwordSlice(One(m, f), g.at);
    DwordSlice(m, g.at);
  }

  lemma DwordSlice(m: seq<byte>, at: nat)
    requires at + 4 <= |m|
    ensures DwordAt(m, at) == DwordAt(m[at..at + 4], 0)
  {
  }

  lemma TooLargeTail(m: seq<byte>, fs: seq<Fixup>)
    requires InMemory(m, fs) && NoOverlap(fs) && fs != [] && DwordAt(m, fs[0].at) <= LIMIT
    ensures TooLarge(m, fs) <==> TooLarge(One(m, fs[0]), fs[1..])
  {
    hide DwordAt, One;
    var m1, rest := One(m, fs[0]), fs[1..];
    forall i | 0 < i < |fs|
      ensures rest[i - 1] == fs[i] && DwordAt(m1, fs[i].at) == DwordAt(m, fs[i].at)
    {
      OneElsewhere(m, fs[0], fs[i]);
    }
  }

  lemma RelocatedTail(m: seq<byte>, fs: seq<Fixup>, m': seq<byte>)
    requires InMemory(m, fs) && NoOverlap(fs) && fs != []
    requires Relocated(One(m, fs[0]), fs[1..], m')
    ensures Relocated(m, fs, m')
  {
    hide DwordAt, Fixed;
    var f, m1, rest := fs[0], One(m, fs[0]), fs[1..];
    forall i | 0 <= i < |fs|
      ensures m'[fs[i].at..fs[i].at + 4] == Fixed(m, fs[i])
    {
      if i == 0 {
        PatchAt(m, f.at, Fixed(m, f));
        HeadKept(m1, rest, m', f);
      } else {
        OneElsewhere(m, f, fs[i]);
        assert rest[i - 1] == fs[i];
      }
    }
    forall x | 0 <= x < |m| && !Covered(fs, x)
      ensures m'[x] == m[x]
    {
      CoveredTail(fs, x);
    }
  }

  lemma CoveredTail(fs: seq<Fixup>, x: int)
    requires fs != []
    ensures Covered(fs[1..], x) || fs[0].at <= x < fs[0].at + 4 ==> Covered(fs, x)
  {
    var rest := fs[1..];
    if i :| 0 <= i < |rest| && rest[i].at <= x < rest[i].at + 4 {
      assert fs[i + 1] == rest[i];
    }
  }

  lemma HeadKept(m1: seq<byte>, rest: seq<Fixup>, m': seq<byte>, f: Fixup)
    requires InMemory(m1, rest) && Relocated(m1, rest, m') && f.at + 4 <= |m1|
    requires forall i :: 0 <= i < |rest| ==> Apart(f, rest[i])
    ensures m'[f.at..f.at + 4] == m1[f.at..f.at + 4]
  {
    hide Fixed;
    forall x | f.at <= x < f.at + 4
      ensures !Covered(rest, x)
    {
    }
  }

  // Relocation succeeds if and only if no listed long word is too large, and then changes exactly
  // the listed long words, each to its old value plus the address.
  lemma {:induction false} ApplyExact(m: seq<byte>, fs: seq<Fixup>)
    requires InMemory(m, fs) && NoOverlap(fs)
    ensures Apply(m, fs).None? <==> TooLarge(m, fs)
    ensures Apply(m, fs).Some? ==> Relocated(m, fs, Apply(m, fs).value)
    decreases |fs|
  {
    hide DwordAt, One, Relocated, TooLarge, Fixed;
    if fs == [] {
      NothingToFix(m);
    } else if DwordAt(m, fs[0].at) > LIMIT {
      FirstTooLarge(m, fs);
    } else {
      ApplyExact(One(m, fs[0]), fs[1..]);
      TooLargeTail(m, fs);
      if Apply(m, fs).Some? {
        RelocatedTail(m, fs, Apply(m, fs).value);
      }
    }
  }

  lemma NothingToFix(m: seq<byte>)
    ensures !TooLarge(m, []) && Relocated(m, [], m)
  {
  }

  lemma FirstTooLarge(m: seq<byte>, fs: seq<Fixup>)
    requires InMemory(m, fs) && fs != [] && DwordAt(m, fs[0].at) > LIMIT
    ensures TooLarge(m, fs)
  {
  }

  // The same relocations in another order, or grouped differently, give the same memory.
  lemma OrderIrrelevant(m: seq<byte>, fs: seq<Fixup>, gs: seq<Fixup>)
    requires InMemory(m, fs) && InMemory(m, gs) && NoOverlap(fs) && NoOverlap(gs)
    requires forall f: Fixup :: f in fs <==> f in gs
    ensures Apply(m, fs) == Apply(m, gs)
  {
    hide DwordAt, Fixed, Apply;
    ApplyExact(m, fs);
    ApplyExact(m, gs);
    SameTooLarge(m, fs, gs);
    if Apply(m, fs).Some? {
      RelocatedUnique(m, fs, gs, Apply(m, fs).value, Apply(m, gs).value);
    }
  }

  lemma SameTooLarge(m: seq<byte>, fs: seq<Fixup>, gs: seq<Fixup>)
    requires InMemory(m, fs) && InMemory(m, gs)
    requires forall f: Fixup :: f in fs <==> f in gs
    ensures TooLarge(m, fs) <==> TooLarge(m, gs)
  {
    hide DwordAt;
    if i :| 0 <= i < |fs| && DwordAt(m, fs[i].at) > LIMIT {
      assert fs[i] in gs;
    }
    if i :| 0 <= i < |gs| && DwordAt(m, gs[i].at) > LIMIT {
      assert gs[i] in fs;
    }
  }

  lemma RelocatedUnique(m: seq<byte>, fs: seq<Fixup>, gs: seq<Fixup>, a: seq<byte>, b: seq<byte>)
    requires InMemory(m, fs) && InMemory(m, gs) && Relocated(m, fs, a) && Relocated(m, gs, b)
    requires forall f: Fixup :: f in fs <==> f in gs
    ensures a == b
  {
    hide Fixed;
    forall x | 0 <= x < |m|
      ensures a[x] == b[x]
    {
      if i :| 0 <= i < |fs| && fs[i].at <= x < fs[i].at + 4 {
        assert fs[i] in gs;
        var j :| 0 <= j < |gs| && gs[j] == fs[i];
        assert a[fs[i].at..fs[i].at + 4][x - fs[i].at] == b[gs[j].at..gs[j].at + 4][x - gs[j].at];
      } else {
        SameCovered(fs, gs, x);
      }
    }
  }

  lemma SameCovered(fs: seq<Fixup>, gs: seq<Fixup>, x: int)
    requires forall f: Fixup :: f in fs <==> f in gs
    ensures Covered(gs, x) ==> Covered(fs, x)
  {
    if j :| 0 <= j < |gs| && gs[j].at <= x < gs[j].at + 4 {
      assert gs[j] in fs;
      var i :| 0 <= i < |fs| && fs[i] == gs[j];
    }
  }
}
