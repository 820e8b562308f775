/** Exactly which hunk headers the loader accepts. */
module HeaderCheck {
  import opened Base
  import opened Loader

  // Long word k behind position pos is a hunk size that passes the loader's check.
  predicate SizeAccepted(f: seq<byte>, pos: nat, k: nat) {
    pos + 4 * k + 4 <= |f| && InBytes(DwordAt(f, pos + 4 * k)) <= MAX_HUNK_SIZE
  }

  predicate SizesAccepted(f: seq<byte>, pos: nat, n: nat) { forall k: nat :: k < n ==> SizeAccepted(f, pos, k) }

  lemma SizesShift(f: seq<byte>, pos: nat, n: nat)
    requires n > 0
    ensures SizesAccepted(f, pos, n) <==> SizeAccepted(f, pos, 0) && SizesAccepted(f, pos + 4, n - 1)
  {
    hide SizeAccepted;
    var next := pos + 4;
    if SizesAccepted(f, pos, n) {
      forall k: nat | k < n - 1
        ensures SizeAccepted(f, next, k)
      {
        SizeShift(f, pos, k);
      }
    }
    if SizeAccepted(f, pos, 0) && SizesAccepted(f, pos + 4, n - 1) {
      forall k: nat | k < n
        ensures SizeAccepted(f, pos, k)
      {
        if k > 0 {
          SizeShift(f, pos, k - 1);
        }
      }
    }
  }

  lemma SizeShift(f: seq<byte>, pos: nat, k: nat)
    ensures SizeAccepted(f, pos + 4, k) == SizeAccepted(f, pos, k + 1)
  {
    hide DwordAt;
  }

  lemma {:induction false} SizesExact(f: seq<byte>, pos: nat, i: nat, last: u32, address: nat, st: State)
    requires StateOk(st) && i <= last + 1 && address <= MAX_HUNK_SIZE * i
    ensures Sizes(f, pos, i, last, address, st).Done? <==>
            SizesAccepted(f, pos, last + 1 - i) && (i <= last ==> last < MAX_HUNKS)
    decreases last + 1 - i
  {
    hide DwordAt, SizesAccepted;
    if i <= last {
      SizesShift(f, pos, last + 1 - i);
      if SizeAccepted(f, pos, 0) && i < MAX_HUNKS {
        SizesExact(f, pos + 4, i + 1, last, address + MAX_HUNK_SIZE, st.(hunks := st.hunks[i := Some(address)]));
      }
    } else {
      NoSizes(f, pos);
    }
  }

  lemma NoSizes(f: seq<byte>, pos: nat)
    ensures SizesAccepted(f, pos, 0)
  {
  }

  lemma NoHunks(f: seq<byte>, pos: nat, i: nat, last: u32, address: nat, st: State)
    requires StateOk(st) && i > last
    ensures Sizes(f, pos, i, last, address, st) == Done(st, pos)
  {
  }

  // A header is accepted if and only if it names no resident libraries and announces at most four
  // hunks, and either none follow or they are numbered up to 3 and all their sizes are there and at
  // most 64 KB. All of this is 32-bit arithmetic.
  lemma HeaderExact(f: seq<byte>, pos: nat, st: State, first: u32, last: u32)
    requires StateOk(st) && pos + 16 <= |f| && first == DwordAt(f, pos + 8) && last == DwordAt(f, pos + 12)
    ensures HeaderBlock(f, pos, st).Done? <==>
            && DwordAt(f, pos) == 0
            && if first > last then Announced(first, last) <= MAX_HUNKS
               else last < MAX_HUNKS && SizesAccepted(f, pos + 16, last + 1 - first)
  {
    hide DwordAt, SizesAccepted, Sizes;
    var st' := st.(last := Some(last), mem := seq(HUNK_MEMORY, _ => 0));
    if first <= last {
      SizesExact(f, pos + 16, first, last, 0, st');
    } else {
      NoHunks(f, pos + 16, first, last, 0, st');
    }
  }

  // The number of hunks that a header announces
  function Announced(first: int, last: int): u32 { Low32(last - first + 1) }

  // The check wraps around: a size is accepted if and only if it is at most 16384 long words, modulo 2 to the 30.
  lemma SizeCheckWraps(ndwords: u32)
    ensures InBytes(ndwords) <= MAX_HUNK_SIZE <==> ndwords % 0x4000_0000 <= 16384
  {
    var q: int, r: int := ndwords / 0x4000_0000, ndwords % 0x4000_0000;
    assert ndwords == 0x4000_0000 * q + r;
  }
}
