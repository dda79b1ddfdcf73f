/** Copying a range of memory to another that may overlap it, a word at a time where possible. */
module MemMoves {
  import opened Radix

  const ALIGN: nat := 4

  /** The memory after the n bytes at src have been copied to dst, all at once. */
  function Moved(m: seq<int>, dst: nat, src: nat, n: nat): (m': seq<int>)
    requires dst + n <= |m| && src + n <= |m|
    ensures |m'| == |m|
  {
    m[..dst] + m[src..src + n] + m[dst + n..]
  }

  /** Byte i, once those of dst from lo to hi have been copied */
  function After(m: seq<int>, dst: nat, src: nat, lo: nat, hi: nat, i: nat): int
    requires lo <= hi && dst + hi <= |m| && src + hi <= |m| && i < |m|
  {
    if dst + lo <= i < dst + hi then m[src + (i - dst)] else m[i]
  }

  lemma MovedAt(m: seq<int>, dst: nat, src: nat, n: nat, i: nat)
    requires dst + n <= |m| && src + n <= |m| && i < |m|
    ensures Moved(m, dst, src, n)[i] == After(m, dst, src, 0, n, i)
  {
  }

  /** Bytes from lo to hi have been copied. */
  ghost predicate Copied(m0: seq<int>, m: seq<int>, dst: nat, src: nat, lo: nat, hi: nat) {
    && |m| == |m0| && lo <= hi && dst + hi <= |m| && src + hi <= |m|
    && forall i: nat :: i < |m| ==> m[i] == After(m0, dst, src, lo, hi, i)
  }

  /** Copying upwards, from the end: what has yet to be read has not been overwritten. */
  lemma CopiedBelow(m0: seq<int>, m: seq<int>, dst: nat, src: nat, n: nat, k: nat, c: nat)
    requires Copied(m0, m, dst, src, k, n) && c <= k && src <= dst
    ensures Copied(m0, Moved(m, dst + (k - c), src + (k - c), c), dst, src, k - c, n)
  {
    var m' := Moved(m, dst + (k - c), src + (k - c), c);
    forall i: nat | i < |m'| ensures m'[i] == After(m0, dst, src, k - c, n, i) {
      MovedAt(m, dst + (k - c), src + (k - c), c, i);
      if dst + (k - c) <= i < dst + k {
        var j := src + (i - dst);
        assert m'[i] == m[j] == After(m0, dst, src, k, n, j);
      } else {
        assert m'[i] == m[i] == After(m0, dst, src, k, n, i);
      }
    }
  }

  /** Copying downwards, from the start. */
  lemma CopiedAbove(m0: seq<int>, m: seq<int>, dst: nat, src: nat, k: nat, c: nat)
    requires Copied(m0, m, dst, src, 0, k) && dst + (k + c) <= |m| && src + (k + c) <= |m| && dst <= src
    ensures Copied(m0, Moved(m, dst + k, src + k, c), dst, src, 0, k + c)
  {
    var m' := Moved(m, dst + k, src + k, c);
    forall i: nat | i < |m'| ensures m'[i] == After(m0, dst, src, 0, k + c, i) {
      MovedAt(m, dst + k, src + k, c, i);
      if dst + k <= i < dst + k + c {
        var j := src + (i - dst);
        assert m'[i] == m[j] == After(m0, dst, src, 0, k, j);
      } else {
        assert m'[i] == m[i] == After(m0, dst, src, 0, k, i);
      }
    }
  }

  lemma AllCopied(m0: seq<int>, m: seq<int>, dst: nat, src: nat, n: nat)
    requires Copied(m0, m, dst, src, 0, n)
    ensures m == Moved(m0, dst, src, n)
  {
    forall i: nat | i < |m| ensures m[i] == Moved(m0, dst, src, n)[i] {
      MovedAt(m0, dst, src, n, i);
    }
  }

  lemma NoneCopied(m: seq<int>, dst: nat, src: nat, k: nat)
    requires dst + k <= |m| && src + k <= |m|
    ensures Copied(m, m, dst, src, k, k)
  {
  }

  lemma SamePlace(m: seq<int>, dst: nat, src: nat, n: nat)
    requires dst + n <= |m| && src + n <= |m| && (n == 0 || dst == src)
    ensures m == Moved(m, dst, src, n)
  {
  }

  predicate Aligned(base: nat, i: nat) {
    (base + i) % ALIGN == 0
  }

  lemma AlignDown(base: nat, i: nat)
    ensures var r := (base + i) % ALIGN; r <= i ==> Aligned(base, i - r)
  {
  }

  lemma AlignUp(base: nat, i: nat)
    requires !Aligned(base, i)
    ensures 0 < ALIGN - (base + i) % ALIGN < ALIGN && Aligned(base, i + (ALIGN - (base + i) % ALIGN))
  {
  }

  lemma AlignWord(base: nat, i: nat)
    requires Aligned(base, i)
    ensures Aligned(base, i + ALIGN) && (i >= ALIGN ==> Aligned(base, i - ALIGN))
  {
  }

  /** *d = *s for bytes */
  method CopyByte(mem: array<int>, d: nat, s: nat)
    requires d < mem.Length && s < mem.Length
    modifies mem
    ensures mem[..] == Moved(old(mem[..]), d, s, 1)
  {
    ghost var m0 := mem[..];
    mem[d] := mem[s];
    assert m0[s..s + 1] == [m0[s]] && mem[..] == m0[d := m0[s]];
  }

  /** The same for words, which must both be aligned; mem starts at address base. */
  method CopyWord(mem: array<int>, base: nat, d: nat, s: nat)
    requires d + ALIGN <= mem.Length && s + ALIGN <= mem.Length
    requires Aligned(base, d) && Aligned(base, s)
    modifies mem
    ensures mem[..] == Moved(old(mem[..]), d, s, ALIGN)
  {
    ghost var m0 := mem[..];
    mem[d], mem[d + 1], mem[d + 2], mem[d + 3] := mem[s], mem[s + 1], mem[s + 2], mem[s + 3];
    forall i: nat | i < |m0| ensures mem[..][i] == Moved(m0, d, s, ALIGN)[i] {
      MovedAt(m0, d, s, ALIGN, i);
    }
  }

  /** memmove, from address base + src to address base + dst */
  method MemMove(mem: array<int>, base: nat, dst: nat, src: nat, n0: nat)
    requires dst + n0 <= mem.Length && src + n0 <= mem.Length
    modifies mem
    ensures mem[..] == Moved(old(mem[..]), dst, src, n0)
  {
    ghost var m0 := mem[..];
    if n0 == 0 || dst == src {
      SamePlace(m0, dst, src, n0);
      return;
    }
    if src < dst { MoveUp(mem, base, dst, src, n0); } else { MoveDown(mem, base, dst, src, n0); }
  }

  method MoveUp(mem: array<int>, base: nat, dst: nat, src: nat, n0: nat)
    requires dst + n0 <= mem.Length && src + n0 <= mem.Length && src < dst && n0 > 0
    modifies mem
    ensures mem[..] == Moved(old(mem[..]), dst, src, n0)
  {
    hide Moved, Copied, Aligned;
    ghost var m0 := mem[..];
    var d: nat, s: nat, n: nat := dst + n0, src + n0, n0;
    NoneCopied(m0, dst, src, n0);
    if !Aligned(base, s) || !Aligned(base, d) {
      var cnt: nat;
      if (base + s) % ALIGN != (base + d) % ALIGN || n <= ALIGN {
        cnt, n := n, 0;
      } else {
        cnt := (base + s) % ALIGN;
        n := n - cnt;
        AlignDown(base, s);
        AlignDown(base, d);
      }
      while cnt > 0
        invariant d == dst + n + cnt && s == src + n + cnt && n + cnt <= n0
        invariant Copied(m0, mem[..], dst, src, n + cnt, n0)
      {
        CopiedBelow(m0, mem[..], dst, src, n0, n + cnt, 1);
        d, s := d - 1, s - 1;
        CopyByte(mem, d, s);
        cnt := cnt - 1;
      }
    }
    while n >= ALIGN
      invariant n <= n0 && d == dst + n && s == src + n && Copied(m0, mem[..], dst, src, n, n0)
      invariant n >= ALIGN ==> Aligned(base, s) && Aligned(base, d)
    {
      CopiedBelow(m0, mem[..], dst, src, n0, n, ALIGN);
      AlignWord(base, s);
      AlignWord(base, d);
      n, s, d := n - ALIGN, s - ALIGN, d - ALIGN;
      CopyWord(mem, base, d, s);
    }
    while n > 0
      invariant n <= n0 && d == dst + n && s == src + n && Copied(m0, mem[..], dst, src, n, n0)
    {
      CopiedBelow(m0, mem[..], dst, src, n0, n, 1);
      d, s := d - 1, s - 1;
      CopyByte(mem, d, s);
      n := n - 1;
    }
    AllCopied(m0, mem[..], dst, src, n0);
  }

  method MoveDown(mem: array<int>, base: nat, dst: nat, src: nat, n0: nat)
    requires dst + n0 <= mem.Length && src + n0 <= mem.Length && dst < src && n0 > 0
    modifies mem
    ensures mem[..] == Moved(old(mem[..]), dst, src, n0)
  {
    hide Moved, Copied, Aligned;
    ghost var m0 := mem[..];
    var d: nat, s: nat, n: nat := dst, src, n0;
    ghost var k: nat := 0;
    NoneCopied(m0, dst, src, 0);
    if !Aligned(base, s) || !Aligned(base, d) {
      var cnt: nat;
      if (base + s) % ALIGN != (base + d) % ALIGN || n < ALIGN {
        cnt, n := n, 0;
      } else {
        SameAlign(base, s, d);
        AlignUp(base, s);
        AlignUp(base, d);
        cnt := ALIGN - (base + s) % ALIGN;
        n := n - cnt;
      }
      while cnt > 0
        invariant n + cnt + k == n0 && d == dst + k && s == src + k
        invariant Copied(m0, mem[..], dst, src, 0, k)
      {
        CopiedAbove(m0, mem[..], dst, src, k, 1);
        CopyByte(mem, d, s);
        d, s, k := d + 1, s + 1, k + 1;
        cnt := cnt - 1;
      }
    }
    while n >= ALIGN
      invariant n + k == n0 && d == dst + k && s == src + k && Copied(m0, mem[..], dst, src, 0, k)
      invariant n >= ALIGN ==> Aligned(base, s) && Aligned(base, d)
    {
      CopiedAbove(m0, mem[..], dst, src, k, ALIGN);
      AlignWord(base, s);
      AlignWord(base, d);
      CopyWord(mem, base, d, s);
      n, s, d, k := n - ALIGN, s + ALIGN, d + ALIGN, k + ALIGN;
    }
    while n > 0
      invariant n + k == n0 && d == dst + k && s == src + k && Copied(m0, mem[..], dst, src, 0, k)
    {
      CopiedAbove(m0, mem[..], dst, src, k, 1);
      CopyByte(mem, d, s);
      d, s, k := d + 1, s + 1, k + 1;
      n := n - 1;
    }
    AllCopied(m0, mem[..], dst, src, n0);
  }

  lemma SameAlign(base: nat, s: nat, d: nat)
    requires (base + s) % ALIGN == (base + d) % ALIGN && (!Aligned(base, s) || !Aligned(base, d))
    ensures !Aligned(base, s) && !Aligned(base, d)
  {
  }
}
