/** The translation cache (tlcache.c): a bit trie from source to destination addresses, and the
    code area with its bump allocator. */
module TlCache {
  import opened Base

  const NUM_SOURCE_ADDR_BITS := 21
  const KEYS := 0x20_0000                 // 2 to the power NUM_SOURCE_ADDR_BITS
  const MAX_CODE_SIZE := 65536
  const MAX_CODE_BLOCK_SIZE := 1024

  function Pow2(n: nat): (p: nat)
    ensures p > 0
  {
    if n == 0 then 1 else 2 * Pow2(n - 1)
  }

  // The first d of the NUM_SOURCE_ADDR_BITS low bits of an address
  function Prefix(src: u64, d: nat): nat
    requires d <= NUM_SOURCE_ADDR_BITS
  {
    if d == 0 then 0 else 2 * Prefix(src, d - 1) + Div(src, Pow2(NUM_SOURCE_ADDR_BITS - d)) % 2
  }

  // The key under which an address is cached
  function Key(src: u64): nat { src % KEYS }

  lemma MulMono(c: nat, a: int, b: int)
    requires a <= b
    ensures c * a <= c * b
  {
  }

  lemma DivUnique(x: nat, c: nat, q: nat)
    requires c > 0 && c * q <= x < c * q + c
    ensures x / c == q && x % c == x - c * q
  {
    var p := x / c;
    assert c * p <= x < c * p + c;
    if p > q {
      MulMono(c, q + 1, p);
    } else if p < q {
      MulMono(c, p + 1, q);
    }
  }

  lemma HalveDivision(x: nat, c: nat)
    requires c > 0
    ensures x / (2 * c) == x / c / 2
  {
    var q := x / c;
    var h, b := q / 2, q % 2;
    assert c * q <= x < c * q + c;
    assert c * q == c * (2 * h) + c * b == 2 * c * h + c * b;
    DivUnique(x, 2 * c, h);
  }

  lemma ModDouble(x: nat, m: nat)
    requires m > 0
    ensures x % (2 * m) == 2 * (x / 2 % m) + x % 2
  {
    var h := x / 2;
    var q, r := h / m, h % m;
    assert h == m * q + r;
    assert 2 * m * q == 2 * (m * q);
    DivUnique(x, 2 * m, q);
  }

  function Div(x: nat, c: nat): nat
    requires c > 0
  {
    x / c
  }

  function Mod(x: nat, c: nat): nat
    requires c > 0
  {
    x % c
  }

  lemma PrefixStep(src: nat, c: nat, m: nat, p: nat)
    requires c > 0 && m > 0 && p == Mod(Div(src, 2 * c), m)
    ensures Mod(Div(src, c), 2 * m) == 2 * p + Div(src, c) % 2
  {
    HalveDivision(src, c);
    ModDouble(src / c, m);
  }

  lemma {:induction false} PrefixIsDivision(src: u64, d: nat, c: nat, m: nat)
    requires d <= NUM_SOURCE_ADDR_BITS && c == Pow2(NUM_SOURCE_ADDR_BITS - d) && m == Pow2(d)
    ensures Prefix(src, d) == Mod(Div(src, c), m)
    decreases d
  {
    hide Div, Mod;
    if d == 0 {
      ModOne(Div(src, c));
    } else {
      PrefixIsDivision(src, d - 1, 2 * c, Pow2(d - 1));
      PrefixStep(src, c, Pow2(d - 1), Prefix(src, d - 1));
    }
  }

  lemma ModOne(x: nat)
    ensures Mod(x, 1) == 0
  {
  }

  lemma PrefixIsKey(src: u64)
    ensures Prefix(src, NUM_SOURCE_ADDR_BITS) == Key(src)
  {
    assert Pow2(0) == 1 && Pow2(10) == 1024;
    assert Pow2(20) == 1024 * 1024;
    PrefixIsDivision(src, NUM_SOURCE_ADDR_BITS, 1, KEYS);
  }

  // (src & bit) != 0, for a bit given as a power of two
  predicate BitIsSet(src: u64, bit: nat)
    requires bit > 0
  {
    Div(src, bit) % 2 == 1
  }

  lemma PrefixStart(src: u64)
    ensures Prefix(src, 0) == 0 && Pow2(NUM_SOURCE_ADDR_BITS - 1) == 0x10_0000
  {
    assert Pow2(10) == 1024;
    assert Pow2(20) == 1024 * 1024;
  }

  lemma NextPrefix(src: u64, d: nat, bit: nat)
    requires d < NUM_SOURCE_ADDR_BITS && bit == Pow2(NUM_SOURCE_ADDR_BITS - 1 - d)
    ensures Prefix(src, d + 1) == 2 * Prefix(src, d) + Div(src, bit) % 2
    ensures bit / 2 == if d + 1 < NUM_SOURCE_ADDR_BITS then Pow2(NUM_SOURCE_ADDR_BITS - 2 - d) else 0
    ensures bit > 1 <==> d < NUM_SOURCE_ADDR_BITS - 1
  {
  }

  // What a child pointer of a node holds: another node, or on the last level a destination address
  datatype Slot = Null | Child(node: Node) | Dest(addr: u64)

  class Node {
    var left: Slot
    var right: Slot

    constructor ()
      ensures left == Null && right == Null
    {
      left, right := Null, Null;
    }

    ghost function Pair(): (Slot, Slot)
      reads this
    {
      (left, right)
    }

    // Store into the child pointer that an address bit selects.
    method Set(bitSet: bool, s: Slot)
      modifies this
      ensures Pair() == if bitSet then (s, old(right)) else (old(left), s)
    {
      if bitSet { left := s; } else { right := s; }
    }

    // Allocate an empty child.
    method Attach(bitSet: bool) returns (node: Node)
      modifies this
      ensures fresh(node) && node.Pair() == (Null, Null)
      ensures Pair() == if bitSet then (Child(node), old(right)) else (old(left), Child(node))
    {
      node := new Node();
      Set(bitSet, Child(node));
    }
  }

  // A node is known by its depth and by the address bits that lead to it.
  type Path = (nat, nat)

  ghost predicate ParentsIn(paths: set<Path>) {
    forall k: Path :: k in paths && k.0 > 0 ==> (k.0 - 1, k.1 / 2) in paths
  }

  lemma ParentsInAdd(nodes: map<Path, Node>, d: nat, p: nat, node: Node)
    requires ParentsIn(nodes.Keys) && (d, p / 2) in nodes
    ensures ParentsIn(nodes[(d + 1, p) := node].Keys)
  {
  }

  lemma ParentOf(paths: set<Path>, k: Path)
    requires ParentsIn(paths) && k in paths && k.0 > 0
    ensures (k.0 - 1, k.1 / 2) in paths
  {
  }

  ghost predicate Injective(nodes: map<Path, Node>) {
    forall k: Path, l: Path :: k in nodes && l in nodes && nodes[k] == nodes[l] ==> k == l
  }

  function Pick(s: (Slot, Slot), bit: nat): Slot { if bit == 1 then s.0 else s.1 }

  // What the child pointer of node k for one more address bit must hold
  ghost function Expected(nodes: map<Path, Node>, view: map<nat, u64>, k: Path, bit: nat): Slot {
    var next := 2 * k.1 + bit;
    if k.0 < NUM_SOURCE_ADDR_BITS - 1 then
      if (k.0 + 1, next) in nodes then Child(nodes[(k.0 + 1, next)]) else Null
    else if next in view then Dest(view[next]) else Null
  }

  ghost predicate Linked(slots: map<Path, (Slot, Slot)>, nodes: map<Path, Node>, view: map<nat, u64>) {
    forall k: Path, bit: nat :: k in slots && bit < 2 ==> Pick(slots[k], bit) == Expected(nodes, view, k, bit)
  }

  ghost predicate NoChildren(nodes: map<Path, Node>, view: map<nat, u64>, k: Path) {
    Expected(nodes, view, k, 0) == Null && Expected(nodes, view, k, 1) == Null
  }

  // A missing child has no children of its own, either.
  lemma NotYetThere(slots: map<Path, (Slot, Slot)>, nodes: map<Path, Node>, view: map<nat, u64>, d: nat, p: nat,
      bit: nat)
    requires Linked(slots, nodes, view) && Shape(nodes, view) && slots.Keys == nodes.Keys
    requires d < NUM_SOURCE_ADDR_BITS - 1 && bit < 2
    requires (d, p) in nodes && Pick(slots[(d, p)], bit) == Null
    ensures (d + 1, 2 * p + bit) !in nodes
    ensures NoChildren(nodes, view, (d + 1, 2 * p + bit))
  {
    hide ParentsIn;
    var next := 2 * p + bit;
    assert Pick(slots[(d, p)], bit) == Expected(nodes, view, (d, p), bit);
    forall k: Path | k in nodes && k.0 == d + 2
      ensures k.1 / 2 != next
    {
      ParentOf(nodes.Keys, k);
    }
    assert 2 * next / 2 == next == (2 * next + 1) / 2;
  }

  lemma StillLinked(slots: map<Path, (Slot, Slot)>, nodes: map<Path, Node>, view: map<nat, u64>, d: nat, p: nat,
      bit: nat,
                    node: Node, slots': map<Path, (Slot, Slot)>)
    requires Linked(slots, nodes, view) && slots.Keys == nodes.Keys
    requires d < NUM_SOURCE_ADDR_BITS - 1 && bit < 2 && (d, p) in nodes
    requires (d + 1, 2 * p + bit) !in nodes
    requires NoChildren(nodes, view, (d + 1, 2 * p + bit))
    requires slots'.Keys == nodes[(d + 1, 2 * p + bit) := node].Keys && slots'[(d + 1, 2 * p + bit)] == (Null, Null)
    requires Pick(slots'[(d, p)], bit) == Child(node) && Pick(slots'[(d, p)], 1 - bit) == Pick(slots[(d, p)], 1 - bit)
    requires forall k: Path :: k in slots && k != (d, p) ==> slots'[k] == slots[k]
    ensures Linked(slots', nodes[(d + 1, 2 * p + bit) := node], view)
  {
    var next := (d + 1, 2 * p + bit);
    var nodes' := nodes[next := node];
    forall k: Path, b: nat | k in slots' && b < 2
      ensures Pick(slots'[k], b) == Expected(nodes', view, k, b)
    {
      if k == next {
        assert Expected(nodes, view, k, b) == Null;
      } else {
        assert Pick(slots[k], b) == Expected(nodes, view, k, b);
      }
    }
  }

  lemma DistinctNodes(nodes: map<Path, Node>, k: Path)
    requires Injective(nodes) && k in nodes
    ensures forall l: Path :: l in nodes && l != k ==> nodes[l] != nodes[k]
  {
  }

  lemma InjectiveAdd(nodes: map<Path, Node>, k: Path, node: Node)
    requires Injective(nodes) && node !in nodes.Values && k !in nodes
    ensures Injective(nodes[k := node])
  {
  }

  // Node depths and parents are right, and every cached key has its last node.
  ghost predicate Shape(nodes: map<Path, Node>, view: map<nat, u64>) {
    && (forall k: Path :: k in nodes ==> k.0 < NUM_SOURCE_ADDR_BITS)
    && ParentsIn(nodes.Keys)
    && (forall key: nat :: key in view ==> (NUM_SOURCE_ADDR_BITS - 1, key / 2) in nodes && view[key] != 0)
  }

  lemma ShapeAdd(nodes: map<Path, Node>, view: map<nat, u64>, d: nat, p: nat, node: Node)
    requires Shape(nodes, view) && (d, p / 2) in nodes && d < NUM_SOURCE_ADDR_BITS - 1
    ensures Shape(nodes[(d + 1, p) := node], view)
  {
    hide ParentsIn;
    ParentsInAdd(nodes, d, p, node);
  }

  lemma ShapeDest(nodes: map<Path, Node>, view: map<nat, u64>, p: nat, bit: nat, dst: u64)
    requires Shape(nodes, view) && (NUM_SOURCE_ADDR_BITS - 1, p) in nodes && bit < 2 && dst != 0
    ensures Shape(nodes, view[2 * p + bit := dst])
  {
    hide ParentsIn;
  }

  // Once the path of an address breaks off, the address is not in the cache.
  lemma MissingPath(nodes: map<Path, Node>, view: map<nat, u64>, src: u64, d: nat)
    requires Shape(nodes, view) && d <= NUM_SOURCE_ADDR_BITS
    requires if d < NUM_SOURCE_ADDR_BITS then (d, Prefix(src, d)) !in nodes else Prefix(src, d) !in view
    ensures Key(src) !in view
    decreases NUM_SOURCE_ADDR_BITS - d
  {
    hide Div, Pow2, ParentsIn;
    if d < NUM_SOURCE_ADDR_BITS {
      assert Prefix(src, d + 1) / 2 == Prefix(src, d);
      if d + 1 < NUM_SOURCE_ADDR_BITS && (d + 1, Prefix(src, d + 1)) in nodes {
        ParentOf(nodes.Keys, (d + 1, Prefix(src, d + 1)));
      }
      MissingPath(nodes, view, src, d + 1);
    } else {
      PrefixIsKey(src);
    }
  }

  lemma LinkedDest(slots: map<Path, (Slot, Slot)>, nodes: map<Path, Node>, view: map<nat, u64>, p: nat, bit: nat,
                   dst: u64, s: (Slot, Slot))
    requires Linked(slots, nodes, view) && slots.Keys == nodes.Keys
    requires (NUM_SOURCE_ADDR_BITS - 1, p) in nodes && bit < 2
    requires Pick(s, bit) == Dest(dst) && Pick(s, 1 - bit) == Pick(slots[(NUM_SOURCE_ADDR_BITS - 1, p)], 1 - bit)
    requires Shape(nodes, view)
    ensures Linked(slots[(NUM_SOURCE_ADDR_BITS - 1, p) := s], nodes, view[2 * p + bit := dst])
  {
    hide ParentsIn;
    var slots', view' := slots[(NUM_SOURCE_ADDR_BITS - 1, p) := s], view[2 * p + bit := dst];
    forall k: Path, b: nat | k in slots' && b < 2
      ensures Pick(slots'[k], b) == Expected(nodes, view', k, b)
    {
      assert Pick(slots[k], b) == Expected(nodes, view, k, b);
    }
  }

  class TranslationCache {
    var root: Node
    const code: array<byte>               // the mapped code area ...
    const firstCodeBlock: u64             // ... and its address
    var nextCodeBlock: u64
    ghost var nodes: map<Path, Node>
    ghost var slots: map<Path, (Slot, Slot)>
    ghost var view: map<nat, u64>         // key to destination address
    ghost var repr: set<Node>

    ghost predicate Valid()
      reads this, repr
    {
      && (0, 0) in nodes && nodes[(0, 0)] == root
      && Shape(nodes, view)
      && Injective(nodes)
      && Mirrored()
      && Linked(slots, nodes, view)
      && firstCodeBlock <= nextCodeBlock <= firstCodeBlock + MAX_CODE_SIZE
    }

    // `slots` shows the child pointers of all nodes.
    ghost predicate Mirrored()
      reads this, repr
    {
      && slots.Keys == nodes.Keys
      && forall k: Path :: k in nodes ==> nodes[k] in repr && slots[k] == nodes[k].Pair()
    }

    // The root's child pointers are taken to be NULL, as the lookups need them to be.
    constructor (codeAddr: u64)
      requires 0 < codeAddr < TWO64 - MAX_CODE_SIZE
      ensures Valid() && view == map[] && fresh(repr) && fresh(code)
      ensures firstCodeBlock == nextCodeBlock == codeAddr && code.Length == MAX_CODE_SIZE
    {
      var node := new Node();
      root := node;
      firstCodeBlock, nextCodeBlock := codeAddr, codeAddr;
      code := new byte[MAX_CODE_SIZE];
      nodes, slots, repr := map[(0, 0) := node], map[(0, 0) := (Null, Null)], {node};
      view := map[];
    }

    // tc_get_code_block: bump allocation of fixed-size blocks
    method GetCodeBlock() returns (block: Option<u64>)
      requires Valid()
      requires firstCodeBlock < TWO64 - MAX_CODE_SIZE
      modifies this`nextCodeBlock
      ensures Valid()
      ensures old(nextCodeBlock) + MAX_CODE_BLOCK_SIZE <= firstCodeBlock + MAX_CODE_SIZE
              ==> block == Some(old(nextCodeBlock)) && nextCodeBlock == old(nextCodeBlock) + MAX_CODE_BLOCK_SIZE
      ensures old(nextCodeBlock) + MAX_CODE_BLOCK_SIZE > firstCodeBlock + MAX_CODE_SIZE
              ==> block == None && nextCodeBlock == old(nextCodeBlock)
    {
      hide Shape, Linked, Injective;
      var limit: int, end: int := firstCodeBlock, nextCodeBlock;
      if end + MAX_CODE_BLOCK_SIZE <= limit + MAX_CODE_SIZE {
        nextCodeBlock := end + MAX_CODE_BLOCK_SIZE;
        block := Some(end);
      } else {
        block := None;
      }
    }

    // tc_get_addr: the address last stored for a key, or nothing
    method GetAddr(src: u64) returns (dst: Option<u64>)
      requires Valid()
      ensures dst == if Key(src) in view then Some(view[Key(src)]) else None
    {
      hide Div, Prefix, Pow2, Shape;
      var currBit := 0x10_0000;
      var curr := Child(root);
      ghost var d := 0;
      PrefixStart(src);
      while currBit > 0
        invariant 0 <= d <= NUM_SOURCE_ADDR_BITS
        invariant currBit == if d < NUM_SOURCE_ADDR_BITS then Pow2(NUM_SOURCE_ADDR_BITS - 1 - d) else 0
        invariant d < NUM_SOURCE_ADDR_BITS ==>
                    (d, Prefix(src, d)) in nodes && curr == Child(nodes[(d, Prefix(src, d))])
        invariant d == NUM_SOURCE_ADDR_BITS ==> Prefix(src, d) in view && curr == Dest(view[Prefix(src, d)])
        decreases NUM_SOURCE_ADDR_BITS - d
      {
        ghost var k := (d, Prefix(src, d));
        ghost var bit := Div(src, currBit) % 2;
        NextPrefix(src, d, currBit);
        assert Pick(slots[k], bit) == Expected(nodes, view, k, bit);
        curr := if BitIsSet(src, currBit) then curr.node.left else curr.node.right;
        if curr.Null? {
          MissingPath(nodes, view, src, d + 1);
          return None;
        }
        currBit := currBit / 2;
        d := d + 1;
      }
      PrefixIsKey(src);
      return Some(curr.addr);
    }

    // tc_put_addr: `mallocs` is the number of node allocations that will still succeed.
    method PutAddr(src: u64, dst: u64, mallocs: nat) returns (ok: bool)
      requires Valid() && src < TWO32 && dst != 0
      modifies this`nodes, this`slots, this`view, this`repr, repr
      ensures Valid()
      ensures old(repr) <= repr && fresh(repr - old(repr))
      ensures ok ==> view == old(view)[Key(src) := dst]
      ensures !ok ==> view == old(view)
      ensures mallocs >= NUM_SOURCE_ADDR_BITS - 1 ==> ok
    {
      hide Div, Prefix, Pow2, Shape;
      var currBit := 0x10_0000;
      var curr := root;
      ghost var d := 0;
      var left := mallocs;
      PrefixStart(src);
      while currBit > 1
        invariant 0 <= d < NUM_SOURCE_ADDR_BITS
        invariant currBit == Pow2(NUM_SOURCE_ADDR_BITS - 1 - d)
        invariant Valid() && view == old(view)
        invariant old(repr) <= repr && fresh(repr - old(repr))
        invariant (d, Prefix(src, d)) in nodes && curr == nodes[(d, Prefix(src, d))]
        invariant left + d >= mallocs
        decreases NUM_SOURCE_ADDR_BITS - d
      {
        NextPrefix(src, d, currBit);
        ghost var k, bit := (d, Prefix(src, d)), Div(src, currBit) % 2;
        assert Pick(slots[k], bit) == Expected(nodes, view, k, bit);
        var slot := if BitIsSet(src, currBit) then curr.left else curr.right;
        if slot.Null? {
          if left == 0 {
            return false;
          }
          left := left - 1;
          slot := AddChild(curr, BitIsSet(src, currBit), d, Prefix(src, d));
        }
        curr := slot.node;
        currBit := currBit / 2;
        d := d + 1;
      }
      NextPrefix(src, d, currBit);
      PrefixIsKey(src);
      StoreDest(curr, BitIsSet(src, 1), Prefix(src, d), dst);
      return true;
    }

    // Append an empty node where the path breaks off.
    method AddChild(curr: Node, bitSet: bool, ghost d: nat, ghost p: nat) returns (slot: Slot)
      requires Valid() && d < NUM_SOURCE_ADDR_BITS - 1
      requires (d, p) in nodes && curr == nodes[(d, p)]
      requires Pick(curr.Pair(), if bitSet then 1 else 0) == Null
      modifies this`nodes, this`slots, this`repr, curr
      ensures Valid() && slot.Child? && fresh(slot.node)
      ensures nodes == old(nodes)[(d + 1, 2 * p + if bitSet then 1 else 0) := slot.node]
      ensures repr == old(repr) + {slot.node}
    {
      hide Shape, Linked, Expected, Injective;
      ghost var b := if bitSet then 1 else 0;
      ghost var next := (d + 1, 2 * p + b);
      NotYetThere(slots, nodes, view, d, p, b);
      DistinctNodes(nodes, (d, p));
      ghost var nodes0, slots0 := nodes, slots;
      var node := curr.Attach(bitSet);
      slot := Child(node);
      ghost var slots' := slots[(d, p) := curr.Pair()][next := (Null, Null)];
      StillLinked(slots, nodes, view, d, p, b, node, slots');
      InjectiveAdd(nodes, next, node);
      ShapeAdd(nodes, view, d, next.1, node);
      nodes, slots, repr := nodes[next := node], slots', repr + {node};
      forall k: Path | k in nodes
        ensures nodes[k] in repr && slots[k] == nodes[k].Pair()
      {
        if k != next && k != (d, p) {
          assert nodes[k] == nodes0[k] && slots[k] == slots0[k];
        }
      }
    }

    method StoreDest(curr: Node, bitSet: bool, ghost p: nat, dst: u64)
      requires Valid() && dst != 0
      requires (NUM_SOURCE_ADDR_BITS - 1, p) in nodes && curr == nodes[(NUM_SOURCE_ADDR_BITS - 1, p)]
      modifies this`slots, this`view, curr
      ensures Valid() && view == old(view)[2 * p + (if bitSet then 1 else 0) := dst]
    {
      hide Shape, Linked, Expected, Injective;
      ghost var b := if bitSet then 1 else 0;
      ghost var k := (NUM_SOURCE_ADDR_BITS - 1, p);
      DistinctNodes(nodes, k);
      curr.Set(bitSet, Dest(dst));
      ShapeDest(nodes, view, p, b, dst);
      LinkedDest(slots, nodes, view, p, b, dst, curr.Pair());
      slots, view := slots[k := curr.Pair()], view[2 * p + b := dst];
    }
  }
}
