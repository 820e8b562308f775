/** What lookups in the translation cache return after any sequence of puts. */
module CacheMap {
  import opened Base
  import opened TlCache

  // A put, and whether all the memory for it was there
  datatype Put = Put(src: u64, dst: u64, ok: bool)

  // The cache's map after some puts, each with the effect that PutAddr promises
  function After(puts: seq<Put>): map<nat, u64> {
    if puts == [] then map[]
    else
      var before, p := After(puts[..|puts| - 1]), puts[|puts| - 1];
      if p.ok then before[Key(p.src) := p.dst] else before
  }

  // Put number i is the last successful one for an address with the same low 21 bits as src.
  predicate Last(puts: seq<Put>, src: u64, i: nat) {
    && i < |puts| && puts[i].ok && Key(puts[i].src) == Key(src)
    && forall j: nat :: i < j < |puts| && puts[j].ok ==> Key(puts[j].src) != Key(src)
  }

  // The lookup finds the value of the last put for the key, and nothing if there was none.
  lemma {:induction false} LookupFindsLast(puts: seq<Put>, src: u64)
    ensures forall i: nat :: Last(puts, src, i) ==> Key(src) in After(puts) && After(puts)[Key(src)] == puts[i].dst
    ensures Key(src) in After(puts) ==> exists i: nat :: Last(puts, src, i)
    decreases |puts|
  {
    hide Key;
    if puts != [] {
      var n := |puts| - 1;
      var before := puts[..n];
      LookupFindsLast(before, src);
      if puts[n].ok && Key(puts[n].src) == Key(src) {
        assert Last(puts, src, n);
      } else {
        forall i: nat
          ensures Last(puts, src, i) <==> Last(before, src, i)
        {
          LastBefore(puts, src, i);
        }
      }
    }
  }

  lemma LastBefore(puts: seq<Put>, src: u64, i: nat)
    requires puts != []
    requires var p := puts[|puts| - 1]; !p.ok || Key(p.src) != Key(src)
    ensures Last(puts, src, i) <==> Last(puts[..|puts| - 1], src, i)
  {
    hide Key;
    var before := puts[..|puts| - 1];
    if Last(before, src, i) {
      forall j: nat | i < j < |puts| && puts[j].ok
        ensures Key(puts[j].src) != Key(src)
      {
        if j < |before| {
          assert before[j] == puts[j];
        }
      }
    }
  }

  // A call of tc_put_addr(), and how many node allocations will still succeed
  datatype Request = Request(src: u64, dst: u64, mallocs: nat)

  predicate RequestsOk(rs: seq<Request>) { forall i :: 0 <= i < |rs| ==> rs[i].src < TWO32 && rs[i].dst != 0 }

  // Put number i is what became of request i.
  predicate Served(puts: seq<Put>, rs: seq<Request>) {
    && |puts| <= |rs|
    && forall i :: 0 <= i < |puts| ==>
                     && puts[i].src == rs[i].src && puts[i].dst == rs[i].dst
                     && (rs[i].mallocs >= NUM_SOURCE_ADDR_BITS - 1 ==> puts[i].ok)
  }

  // Serve requests one after the other on an empty trie.
  method PutAll(tc: TranslationCache, rs: seq<Request>) returns (puts: seq<Put>)
    requires tc.Valid() && tc.view == map[] && RequestsOk(rs)
    modifies tc`nodes, tc`slots, tc`view, tc`repr, tc.repr
    ensures tc.Valid() && tc.view == After(puts)
    ensures |puts| == |rs| && Served(puts, rs)
  {
    hide Key, After, Served, Shape, Linked, TlCache.Injective;
    puts := [];
    NoPuts(rs);
    for i := 0 to |rs|
      invariant tc.Valid() && tc.view == After(puts)
      invariant old(tc.repr) <= tc.repr && fresh(tc.repr - old(tc.repr))
      invariant |puts| == i && Served(puts, rs)
    {
      var ok := tc.PutAddr(rs[i].src, rs[i].dst, rs[i].mallocs);
      PutServed(puts, rs, ok);
      puts := puts + [Put(rs[i].src, rs[i].dst, ok)];
    }
  }

  lemma NoPuts(rs: seq<Request>)
    ensures After([]) == map[] && Served([], rs)
  {
  }

  lemma PutServed(puts: seq<Put>, rs: seq<Request>, ok: bool)
    requires |puts| < |rs| && Served(puts, rs)
    requires rs[|puts|].mallocs >= NUM_SOURCE_ADDR_BITS - 1 ==> ok
    ensures var r := rs[|puts|];
            var puts' := puts + [Put(r.src, r.dst, ok)];
            && After(puts') == (if ok then After(puts)[Key(r.src) := r.dst] else After(puts))
            && Served(puts', rs)
  {
    hide Key, After;
    AfterPut(puts, Put(rs[|puts|].src, rs[|puts|].dst, ok));
  }

  lemma AfterPut(puts: seq<Put>, p: Put)
    ensures After(puts + [p]) == if p.ok then After(puts)[Key(p.src) := p.dst] else After(puts)
  {
    hide Key;
    assert (puts + [p])[..|puts|] == puts;
  }

  // A new cache, any requests, and then a lookup in its trie: it finds what the last successful
  // request for the key has put there.
  method PutsThenLookup(codeAddr: u64, rs: seq<Request>, src: u64) returns (puts: seq<Put>, dst: Option<u64>)
    requires 0 < codeAddr < TWO64 - MAX_CODE_SIZE && RequestsOk(rs)
    ensures |puts| == |rs| && Served(puts, rs)
    ensures dst.Some? <==> exists i: nat :: Last(puts, src, i)
    ensures forall i: nat :: Last(puts, src, i) ==> dst == Some(puts[i].dst)
  {
    hide Key, Last, Served;
    var tc := new TranslationCache(codeAddr);
    puts := PutAll(tc, rs);
    dst := tc.GetAddr(src);
    FoundIsLast(puts, src);
  }

  lemma FoundIsLast(puts: seq<Put>, src: u64)
    ensures Key(src) in After(puts) <==> exists i: nat :: Last(puts, src, i)
    ensures forall i: nat :: Last(puts, src, i) ==> Key(src) in After(puts) && After(puts)[Key(src)] == puts[i].dst
  {
    hide Key;
    LookupFindsLast(puts, src);
  }

  const HUNKS_START := 0x10_0000
  const HUNKS_END := 0x14_0000

  // For addresses inside the loader's hunks the cache is an exact map: no two of them share a key.
  lemma HunksDoNotAlias(a: u64, b: u64)
    requires HUNKS_START <= a < HUNKS_END && HUNKS_START <= b < HUNKS_END
    ensures Key(a) == Key(b) <==> a == b
  {
  }

  // In general, addresses alias exactly when they are a multiple of 2 MB apart.
  lemma Aliases(a: u64, b: u64)
    ensures Key(a) == Key(b) <==> exists k: int :: a - b == 0x20_0000 * k
  {
    var qa: int, qb: int := a / KEYS, b / KEYS;
    if Key(a) == Key(b) {
      assert a - b == 0x20_0000 * (qa - qb);
    }
    if k: int :| a - b == 0x20_0000 * k {
      ShiftKey(a, b, k);
    }
  }

  lemma ShiftKey(a: int, b: int, k: int)
    requires a == b + KEYS * k
    ensures a % KEYS == b % KEYS
  {
    var q: int := b / KEYS;
    assert a == KEYS * (q + k) + b % KEYS;
  }
}
