/** The C library's moves of bytes within one buffer. */
module Memory {
  import opened Words

  /** `b` written over `p` from `at` on. */
  function Put(p: seq<byte>, at: nat, b: seq<byte>): (q: seq<byte>)
    requires at + |b| <= |p|
    ensures |q| == |p|
  {
    p[..at] + b + p[at + |b|..]
  }

  /** `p` is `was` with the bytes lo..hi of the block at `at` copied from the block at `from`. */
  ghost predicate Copied(p: seq<byte>, was: seq<byte>, at: nat, from: nat, lo: nat, hi: nat) {
    && |p| == |was| && at + hi <= |was| && from + hi <= |was|
    && forall j {:trigger p[j]} | 0 <= j < |was| ::
         p[j] == (if at + lo <= j < at + hi then was[from + (j - at)] else was[j])
  }

  lemma CopiedIsPut(p: seq<byte>, was: seq<byte>, at: nat, from: nat, n: nat)
    requires Copied(p, was, at, from, 0, n)
    ensures p == Put(was, at, was[from..from + n])
  {
  }

  /** memmove() to a higher address. */
  method MoveUp(base: array<byte>, dst: nat, src: nat, n: nat)
    requires src <= dst && dst + n <= base.Length
    modifies base
    ensures base[..] == Put(old(base[..]), dst, old(base[src..src + n]))
  {
    ghost var was := base[..];
    for k := n downto 0
      invariant Copied(base[..], was, dst, src, k, n)
    {
      base[dst + k] := base[src + k];
    }
    CopiedIsPut(base[..], was, dst, src, n);
    assert was[src..src + n] == old(base[src..src + n]);
  }

  /** memcpy() */
  method CopyBytes(base: array<byte>, at: nat, from: nat, n: nat)
    requires from + n <= at && at + n <= base.Length
    modifies base
    ensures base[..] == Put(old(base[..]), at, old(base[from..from + n]))
  {
    ghost var was := base[..];
    for x := 0 to n
      invariant Copied(base[..], was, at, from, 0, x)
    {
      base[at + x] := base[from + x];
    }
    CopiedIsPut(base[..], was, at, from, n);
    assert was[from..from + n] == old(base[from..from + n]);
  }
}
