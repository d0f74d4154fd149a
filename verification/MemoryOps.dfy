/** The two ways the boot service writes memory, and what sequences of such writes do. */
module MemoryOps {
  import opened Words

  /** `memset(at, 0, len)` and `memcpy_via_pdma(dst, src, len)`. */
  datatype Op = Fill(dst: nat, len: nat) | Copy(dst: nat, src: nat, len: nat)

  predicate Covers(op: Op, a: int) { op.dst <= a < op.dst + op.len }

  /** What `op` puts at address `a`; a source outside memory leaves the byte alone. */
  function Put(op: Op, mem: seq<byte>, a: nat): byte
    requires a < |mem|
  {
    match op
    case Fill(dst, len) => if Covers(op, a) then 0 else mem[a]
    case Copy(dst, src, len) => if Covers(op, a) && src + (a - dst) < |mem| then mem[src + (a - dst)] else mem[a]
  }

  function Apply(op: Op, mem: seq<byte>): (m: seq<byte>)
    ensures |m| == |mem|
  {
    seq(|mem|, a requires 0 <= a < |mem| => Put(op, mem, a))
  }

  function Exec(ops: seq<Op>, mem: seq<byte>): (m: seq<byte>)
    ensures |m| == |mem|
  {
    if ops == [] then mem else Apply(ops[|ops| - 1], Exec(ops[..|ops| - 1], mem))
  }

  lemma {:induction false} ExecConcat(a: seq<Op>, b: seq<Op>, mem: seq<byte>)
    ensures Exec(a + b, mem) == Exec(b, Exec(a, mem))
    decreases |b|
  {
    if b == [] {
      assert a + b == a;
    } else {
      assert (a + b)[..|a + b| - 1] == a + b[..|b| - 1];
      ExecConcat(a, b[..|b| - 1], mem);
    }
  }

  lemma ExecOne(op: Op, mem: seq<byte>)
    ensures Exec([op], mem) == Apply(op, mem)
  {
    assert [op][..0] == [];
    assert Exec([op][..0], mem) == mem;
  }

  // ---------------------------------------------------------------- the loops

  method Memset(mem: array<byte>, dst: nat, len: nat)
    requires dst + len <= mem.Length
    modifies mem
    ensures mem[..] == Apply(Fill(dst, len), old(mem[..]))
  {
    var i := 0;
    while i < len
      invariant i <= len
      invariant forall a :: 0 <= a < mem.Length ==> mem[a] == if dst <= a < dst + i then 0 else old(mem[a])
    {
      mem[dst + i] := 0;
      i := i + 1;
    }
  }

  /** `memcpy_via_pdma` insists that source and destination do not overlap. */
  method Memcpy(mem: array<byte>, dst: nat, src: nat, len: nat)
    requires dst + len <= mem.Length && src + len <= mem.Length
    requires if dst > src then src + len - 1 < dst else dst + len - 1 < src
    modifies mem
    ensures mem[..] == Apply(Copy(dst, src, len), old(mem[..]))
  {
    var i := 0;
    while i < len
      invariant i <= len
      invariant forall a :: 0 <= a < mem.Length ==> mem[a] == if dst <= a < dst + i then old(mem[src + (a - dst)])
        else old(mem[a])
    {
      mem[dst + i] := mem[src + i];
      i := i + 1;
    }
  }

  // ---------------------------------------------------------------- writes that stay out of each other's way

  predicate Misses(op: Op, lo: nat, hi: nat) { op.dst + op.len <= lo || hi <= op.dst || op.len == 0 }

  /** No write touches [lo, hi). */
  ghost predicate Spares(ops: seq<Op>, lo: nat, hi: nat) { forall i :: 0 <= i < |ops| ==> Misses(ops[i], lo, hi) }

  lemma {:induction false} SourceKept(ops: seq<Op>, lo: nat, hi: nat, mem: seq<byte>)
    requires Spares(ops, lo, hi) && lo <= hi <= |mem|
    ensures Exec(ops, mem)[lo..hi] == mem[lo..hi]
    decreases |ops|
  {
    if ops != [] {
      var before := Exec(ops[..|ops| - 1], mem);
      SourceKept(ops[..|ops| - 1], lo, hi, mem);
      forall a | lo <= a < hi ensures Exec(ops, mem)[a] == before[a] {
        assert !Covers(ops[|ops| - 1], a);
      }
    }
  }

  ghost predicate Untouched(ops: seq<Op>, a: nat) { forall i :: 0 <= i < |ops| ==> !Covers(ops[i], a) }

  lemma {:induction false} UntouchedKept(ops: seq<Op>, a: nat, mem: seq<byte>)
    requires a < |mem| && Untouched(ops, a)
    ensures Exec(ops, mem)[a] == mem[a]
    decreases |ops|
  {
    if ops != [] { UntouchedKept(ops[..|ops| - 1], a, mem); }
  }
}
