/** The counter mode of utils/id.go: a 16-byte big-endian counter incremented in place with a carry
    loop, and a block cipher applied to it for every second id. */
module IdCounter {
  import opened Values
  import opened Bits

  const BLOCK: nat := 16

  function Pow256(k: nat): (p: nat)
    ensures p >= 1
  {
    if k == 0 then 1 else 256 * Pow256(k - 1)
  }

  /** The number a block of bytes stands for, high byte first. */
  function Number(s: bytes): nat
  {
    if s == [] then 0 else 256 * Number(s[..|s| - 1]) + s[|s| - 1]
  }

  lemma {:induction false} NumberBelow(s: bytes)
    ensures Number(s) < Pow256(|s|)
  {
    if s != [] {
      NumberBelow(s[..|s| - 1]);
    }
  }

  lemma {:induction false} NumberInjective(s: bytes, t: bytes)
    requires |s| == |t| && Number(s) == Number(t)
    ensures s == t
  {
    if s != [] {
      var n := |s| - 1;
      RemainderIs(Number(s), 256, Number(s[..n]), s[n]);
      RemainderIs(Number(t), 256, Number(t[..n]), t[n]);
      NumberInjective(s[..n], t[..n]);
      assert s == s[..n] + [s[n]] && t == t[..n] + [t[n]];
    }
  }

  /** What the carry loop makes of a block. */
  function Incremented(s: bytes): bytes
  {
    if s == [] then [] else
      var init, last := s[..|s| - 1], s[|s| - 1];
      if last == 255 then Incremented(init) + [0] else init + [last + 1]
  }

  lemma {:induction false} IncrementAddsOne(s: bytes)
    ensures |Incremented(s)| == |s|
    ensures Number(Incremented(s)) == (Number(s) + 1) % Pow256(|s|)
  {
    if s != [] {
      var init, last := s[..|s| - 1], s[|s| - 1];
      var t := Incremented(s);
      IncrementAddsOne(init);
      NumberBelow(s);
      NumberBelow(init);
      assert t[..|s| - 1] == if last == 255 then Incremented(init) else init;
      if last == 255 {
        CarryOver(Number(init) + 1, Pow256(|s| - 1));
      } else {
        RemainderIs(Number(s) + 1, Pow256(|s|), 0, Number(s) + 1);
      }
    }
  }

  /** 256 times a number, modulo 256 times m. */
  lemma CarryOver(x: nat, m: nat)
    requires 1 <= x <= m
    ensures 256 * (x % m) == (256 * x) % (256 * m)
  {
    if x == m {
      RemainderIs(x, m, 1, 0);
      RemainderIs(256 * x, 256 * m, 1, 0);
    } else {
      RemainderIs(x, m, 0, x);
      RemainderIs(256 * x, 256 * m, 0, 256 * x);
    }
  }

  lemma {:induction false} CarryRun(s: bytes, k: nat)
    requires k <= |s| && forall i :: k <= i < |s| ==> s[i] == 255
    ensures Incremented(s) == Incremented(s[..k]) + Zeros(|s| - k)
    decreases |s|
  {
    if k < |s| {
      var init := s[..|s| - 1];
      CarryRun(init, k);
      assert init[..k] == s[..k];
      assert Zeros(|s| - k) == Zeros(|s| - 1 - k) + [0];
    } else {
      assert s[..k] == s;
    }
  }

  /** The increment loop on the counter in place. */
  method Increment(ctr: array<byte>)
    modifies ctr
    ensures ctr[..] == Incremented(old(ctr[..]))
  {
    ghost var was := ctr[..];
    var i := ctr.Length - 1;
    while i >= 0
      invariant -1 <= i < ctr.Length
      invariant forall j :: i < j < ctr.Length ==> was[j] == 255
      invariant ctr[..] == was[..i + 1] + Zeros(ctr.Length - 1 - i)
    {
      var next: byte := if ctr[i] == 255 then 0 else ctr[i] + 1;
      assert ctr[i] == was[i];
      ctr[i] := next;
      CarryRun(was, i + 1);
      if ctr[i] != 0 {
        assert was[..i + 1][..i] == was[..i];
        assert ctr[..] == was[..i] + [next] + Zeros(ctr.Length - 1 - i);
        return;
      }
      assert ctr[..] == was[..i] + Zeros(ctr.Length - i);
      i := i - 1;
    }
    CarryRun(was, 0);
    assert was[..0] == [];
  }

  /** Where a counter of one block stands after x steps from 0. */
  ghost function Cycle(x: nat): nat
  {
    x % Pow256(BLOCK)
  }

  lemma IncrementCycles(s: bytes, x: nat)
    requires |s| == BLOCK && Number(s) == Cycle(x)
    ensures |Incremented(s)| == BLOCK && Number(Incremented(s)) == Cycle(x + 1)
  {
    hide Pow256, Number, Incremented;
    IncrementAddsOne(s);
    OneMore(x, Pow256(BLOCK));
  }

  lemma SeedCycles(seed: bytes)
    requires |seed| == BLOCK
    ensures Number(seed) == Cycle(Number(seed))
  {
    hide Pow256, Number;
    NumberBelow(seed);
    RemainderIs(Number(seed), Pow256(BLOCK), 0, Number(seed));
  }

  ghost predicate IsCipher(encrypt: bytes -> bytes)
  {
    && (forall s: bytes :: |s| == BLOCK ==> |encrypt(s)| == BLOCK)
    && forall s: bytes, t: bytes :: |s| == |t| == BLOCK && encrypt(s) == encrypt(t) ==> s == t
  }

  lemma CipherLength(encrypt: bytes -> bytes, s: bytes)
    requires IsCipher(encrypt) && |s| == BLOCK
    ensures |encrypt(s)| == BLOCK
  {
  }

  /** The blocks encrypt consecutive counters from the start on. */
  ghost predicate Keystream(encrypt: bytes -> bytes, start: nat, counters: seq<bytes>, blocks: seq<bytes>)
  {
    && |counters| == |blocks|
    && forall i :: 0 <= i < |blocks| ==>
         |counters[i]| == BLOCK && Number(counters[i]) == Cycle(start + i) && blocks[i] == encrypt(counters[i])
  }

  class Generator {
    const encrypt: bytes -> bytes
    const ctr: array<byte>
    var block: bytes
    var n: nat
    ghost var start: nat
    ghost var counters: seq<bytes>
    ghost var blocks: seq<bytes>

    /** The blocks produced so far encrypt consecutive counters, and the counter is the next one. */
    ghost predicate Valid()
      reads this, ctr
    {
      && IsCipher(encrypt) && Keystream(encrypt, start, counters, blocks)
      && ctr.Length == BLOCK && |block| == BLOCK && (n == 0 || n == 8 || n == 16)
      && Number(ctr[..]) == Cycle(start + |blocks|)
    }

    constructor (encrypt: bytes -> bytes, seed: bytes)
      requires IsCipher(encrypt) && |seed| == BLOCK
      ensures Valid() && blocks == [] && start == Number(seed) && n == BLOCK && fresh(ctr) && this.encrypt == encrypt
    {
      hide Cycle, Number;
      this.encrypt := encrypt;
      ctr := new byte[BLOCK](i requires 0 <= i < BLOCK => seed[i]);
      block, n := Zeros(BLOCK), BLOCK;
      start, counters, blocks := Number(seed), [], [];
      new;
      assert ctr[..] == seed;
      SeedCycles(seed);
    }

    /** Half a block; a used up block is replaced by the cipher of the counter, which then moves on by
        one modulo 256^16. */
    method GenerateID() returns (id: bytes)
      requires Valid()
      modifies this, ctr
      ensures Valid() && start == old(start)
      ensures old(n) == BLOCK ==>
        && block == encrypt(old(ctr[..])) && id == block[..8] && blocks == old(blocks) + [block]
      ensures old(n) < BLOCK ==> blocks == old(blocks) && block == old(block) && id == block[old(n)..old(n) + 8]
      ensures n == (if old(n) == BLOCK then 8 else old(n) + 8)
    {
      hide Cycle, Number, Incremented, IsCipher;
      if n == BLOCK {
        CipherLength(encrypt, ctr[..]);
        block := encrypt(ctr[..]);
        counters, blocks := counters + [ctr[..]], blocks + [block];
        IncrementCycles(ctr[..], start + |blocks| - 1);
        Increment(ctr);
        n := 0;
      }
      id := block[n..n + 8];
      n := n + 8;
    }
  }

  /** Two blocks of a generator are the same if and only if a multiple of 256^16 refills lies between. */
  lemma BlocksRepeatIff(g: Generator, i: nat, j: nat)
    requires g.Valid() && i <= j < |g.blocks|
    ensures g.blocks[i] == g.blocks[j] <==> (j - i) % Pow256(16) == 0
  {
    KeystreamRepeats(g.encrypt, g.start, g.counters, g.blocks, i, j);
  }

  lemma KeystreamRepeats(encrypt: bytes -> bytes, start: nat, counters: seq<bytes>, blocks: seq<bytes>, i: nat, j: nat)
    requires IsCipher(encrypt) && Keystream(encrypt, start, counters, blocks) && i <= j < |blocks|
    ensures blocks[i] == blocks[j] <==> (j - i) % Pow256(BLOCK) == 0
  {
    hide Pow256, Number;
    SameRemainder(start + i, start + j, Pow256(BLOCK));
    if Number(counters[i]) == Number(counters[j]) {
      NumberInjective(counters[i], counters[j]);
    }
  }

  /** A run of 2n ids: the k-th pair is the k-th block, so two pairs are the same only 256^16 pairs apart. */
  method GeneratePairs(encrypt: bytes -> bytes, seed: bytes, n: nat) returns (ids: seq<bytes>)
    requires IsCipher(encrypt) && |seed| == 16
    ensures |ids| == 2 * n
    ensures forall i, j :: 0 <= i <= j < n ==>
      (ids[2 * i] + ids[2 * i + 1] == ids[2 * j] + ids[2 * j + 1] <==> (j - i) % Pow256(16) == 0)
  {
    hide Pow256, Number, IsCipher, Cycle;
    var g := new Generator(encrypt, seed);
    ids := [];
    for k := 0 to n
      invariant g.Valid() && fresh(g) && fresh(g.ctr) && g.n == BLOCK
      invariant |ids| == 2 * k && |g.blocks| == k
      invariant forall i :: 0 <= i < k ==> ids[2 * i] + ids[2 * i + 1] == g.blocks[i]
    {
      var first := g.GenerateID();
      var second := g.GenerateID();
      assert first + second == g.block;
      ids := ids + [first, second];
    }
    forall i, j | 0 <= i <= j < n
      ensures ids[2 * i] + ids[2 * i + 1] == ids[2 * j] + ids[2 * j + 1] <==> (j - i) % Pow256(BLOCK) == 0
    {
      BlocksRepeatIff(g, i, j);
    }
  }

  lemma OneMore(x: nat, m: nat)
    requires m >= 1
    ensures (x % m + 1) % m == (x + 1) % m
  {
    var q, r := x / m, x % m;
    assert x == q * m + r;
    if r + 1 < m {
      RemainderIs(x + 1, m, q, r + 1);
      RemainderIs(r + 1, m, 0, r + 1);
    } else {
      assert x + 1 == (q + 1) * m + 0;
      RemainderIs(x + 1, m, q + 1, 0);
      RemainderIs(r + 1, m, 1, 0);
    }
  }

  lemma SameRemainder(x: nat, y: nat, m: nat)
    requires x <= y && m >= 1
    ensures x % m == y % m <==> (y - x) % m == 0
  {
    var a, b, q, r := x / m, x % m, (y - x) / m, (y - x) % m;
    assert x == a * m + b && y - x == q * m + r;
    if b + r < m {
      assert y == (a + q) * m + (b + r);
      RemainderIs(y, m, a + q, b + r);
    } else {
      assert y == (a + q + 1) * m + (b + r - m);
      RemainderIs(y, m, a + q + 1, b + r - m);
    }
  }
}
