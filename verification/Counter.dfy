/** Counter blocks: the octet-wise increment with carry used by the CTR, GCM and CCM modes. */
module Counter {
  import opened Blocks

  // The number that octets stand for, most significant first.
  function BeNat(s: seq<byte>): nat {
    if s == [] then 0 else 256 * BeNat(s[..|s| - 1]) + s[|s| - 1] as nat
  }

  function Pow256(m: nat): (p: nat)
    ensures p > 0
  {
    if m == 0 then 1 else 256 * Pow256(m - 1)
  }

  // One more, dropping the carry out of the first octet.
  function Incremented(s: seq<byte>): (r: seq<byte>)
    ensures |r| == |s|
  {
    if s == [] then []
    else if s[|s| - 1] + 1 != 0 then s[..|s| - 1] + [s[|s| - 1] + 1]
    else Incremented(s[..|s| - 1]) + [0]
  }

  // The standard incrementing function on the last m octets.
  function NextBlock(a: seq<byte>, m: nat): (r: seq<byte>)
    requires m <= |a|
    ensures |r| == |a|
  {
    a[..|a| - m] + Incremented(a[|a| - m..])
  }

  method Increment(a: array<byte>, m: nat)
    requires m <= a.Length
    modifies a
    ensures a[..] == NextBlock(old(a[..]), m)
  {
    hide Pending;
    ghost var was := a[..];
    var n := a.Length;
    var i := 0;
    NothingPending(was, m);
    while i < m
      invariant 0 <= i <= m && |a[..]| == n
      invariant Pending(a[..], m, i) == NextBlock(was, m)
    {
      PendingStep(a[..], m, i);
      a[n - 1 - i] := a[n - 1 - i] + 1;
      if a[n - 1 - i] != 0 {
        return;
      }
      i := i + 1;
    }
    AllPending(a[..], m);
  }

  // The outcome when the last i octets are done and a carry remains.
  ghost function Pending(s: seq<byte>, m: nat, i: nat): seq<byte>
    requires i <= m <= |s|
  {
    NextBlock(s[..|s| - i], m - i) + s[|s| - i..]
  }

  lemma NothingPending(s: seq<byte>, m: nat)
    requires m <= |s|
    ensures Pending(s, m, 0) == NextBlock(s, m)
  {
    hide NextBlock;
    assert s[..|s|] == s && s[|s|..] == [];
  }

  lemma AllPending(s: seq<byte>, m: nat)
    requires m <= |s|
    ensures Pending(s, m, m) == s
  {
    hide NextBlock;
    NextBlockNone(s[..|s| - m]);
  }

  lemma PendingStep(s: seq<byte>, m: nat, i: nat)
    requires i < m <= |s|
    ensures
      var l := s[|s| - 1 - i] + 1;
      var t := s[|s| - 1 - i := l];
      Pending(s, m, i) == if l != 0 then t else Pending(t, m, i + 1)
  {
    hide NextBlock;
    var k := |s| - 1 - i;
    var l := s[k] + 1;
    var t := s[k := l];
    var head := s[..k + 1];
    CarryStep(head, m - i);
    assert head[..k] == s[..k] == t[..k] && t[k..] == [l] + s[k + 1..];
    assert s[..k] + [l] + s[k + 1..] == t;
    assert NextBlock(s[..k], m - i - 1) + ([l] + s[k + 1..]) == NextBlock(s[..k], m - i - 1) + [l] + s[k + 1..];
  }

  lemma NextBlockNone(a: seq<byte>)
    ensures NextBlock(a, 0) == a
  {
  }

  // Incrementing stops at an octet that does not wrap, and carries past one that does.
  lemma CarryStep(a: seq<byte>, m: nat)
    requires 0 < m <= |a|
    ensures var l := a[|a| - 1] + 1;
      NextBlock(a, m) == if l != 0 then a[..|a| - 1] + [l] else NextBlock(a[..|a| - 1], m - 1) + [0]
  {
    var t := a[|a| - m..];
    assert t[|t| - 1] == a[|a| - 1];
    assert t[..|t| - 1] == a[..|a| - 1][|a| - m..];
    assert a[..|a| - m] + t[..|t| - 1] == a[..|a| - 1];
    assert a[..|a| - 1][..|a| - m] == a[..|a| - m];
  }

  lemma WrapsAt255(b: byte)
    ensures b + 1 == 0 <==> b as nat == 255
    ensures b + 1 != 0 ==> (b + 1) as nat == b as nat + 1
  {
  }

  // ---------------------------------------------------------------- counting

  lemma {:induction false} BeNatBound(s: seq<byte>)
    ensures BeNat(s) < Pow256(|s|)
  {
    if s != [] {
      BeNatBound(s[..|s| - 1]);
    }
  }

  // Incrementing counts modulo 256^|s|.
  lemma {:induction false} IncrementedValue(s: seq<byte>)
    ensures BeNat(Incremented(s)) == if BeNat(s) + 1 == Pow256(|s|) then 0 else BeNat(s) + 1
  {
    if s != [] {
      var init, last := s[..|s| - 1], s[|s| - 1];
      IncrementedValue(init);
      BeNatBound(init);
      WrapsAt255(last);
      var r := Incremented(s);
      assert r[..|r| - 1] == if last + 1 != 0 then init else Incremented(init);
      assert (0 as byte) as nat == 0;
    }
  }

  lemma {:induction false} BeNatInjective(s: seq<byte>, t: seq<byte>)
    requires |s| == |t| && BeNat(s) == BeNat(t)
    ensures s == t
  {
    if s != [] {
      var a, b := s[..|s| - 1], t[..|t| - 1];
      ByteEqual(s[|s| - 1], t[|t| - 1], BeNat(a), BeNat(b));
      BeNatInjective(a, b);
      assert s == a + [s[|s| - 1]] && t == b + [t[|t| - 1]];
    }
  }

  lemma ByteEqual(x: byte, y: byte, a: nat, b: nat)
    requires 256 * a + x as nat == 256 * b + y as nat
    ensures a == b && x == y
  {
    ByteRange(x);
    ByteRange(y);
    SameDigits(x as nat, y as nat, a, b);
    ByteRoundTrip(x);
    ByteRoundTrip(y);
  }

  lemma SameDigits(x: nat, y: nat, a: nat, b: nat)
    requires x < 256 && y < 256 && 256 * a + x == 256 * b + y
    ensures a == b && x == y
  {
  }

  lemma ByteRange(x: byte)
    ensures 0 <= x as nat < 256
  {
  }

  lemma ByteRoundTrip(x: byte)
    ensures (x as nat) as byte == x
  {
  }

  // The counter block after k increments of its last m octets.
  function BlockAfter(t: seq<byte>, m: nat, k: nat): (r: seq<byte>)
    requires m <= |t|
    ensures |r| == |t|
  {
    if k == 0 then t else NextBlock(BlockAfter(t, m, k - 1), m)
  }

  lemma {:induction false} BlockAfterValue(t: seq<byte>, m: nat, k: nat)
    requires m <= |t| && k < Pow256(m)
    ensures BlockAfter(t, m, k)[..|t| - m] == t[..|t| - m]
    ensures var v, w := BeNat(t[|t| - m..]) + k, Pow256(m);
      BeNat(BlockAfter(t, m, k)[|t| - m..]) == if v < w then v else v - w
  {
    hide BeNat, Incremented, Pow256;
    BeNatBound(t[|t| - m..]);
    if k > 0 {
      BlockAfterValue(t, m, k - 1);
      var prev := BlockAfter(t, m, k - 1);
      var low := prev[|t| - m..];
      IncrementedValue(low);
      assert BlockAfter(t, m, k)[|t| - m..] == Incremented(low);
    }
  }

  lemma {:induction false} BlockAfterNext(j: seq<byte>, m: nat, k: nat)
    requires m <= |j|
    ensures BlockAfter(NextBlock(j, m), m, k) == BlockAfter(j, m, k + 1)
  {
    hide NextBlock;
    if k == 0 {
      assert BlockAfter(j, m, 1) == NextBlock(BlockAfter(j, m, 0), m);
    } else {
      BlockAfterNext(j, m, k - 1);
    }
  }

  // No counter block is used twice within 256^m consecutive blocks, and the rest of the block
  // never changes.
  lemma CountersDistinct(t: seq<byte>, m: nat, i: nat, j: nat)
    requires m <= |t| && i < j < Pow256(m)
    ensures BlockAfter(t, m, i) != BlockAfter(t, m, j)
    ensures BlockAfter(t, m, i)[..|t| - m] == BlockAfter(t, m, j)[..|t| - m]
  {
    hide BeNat, Incremented, Pow256, BlockAfter;
    BlockAfterValue(t, m, i);
    BlockAfterValue(t, m, j);
    BeNatBound(t[|t| - m..]);
  }

  // And they recur exactly after 256^m blocks.
  lemma CountersRecur(t: seq<byte>, m: nat)
    requires m <= |t|
    ensures BlockAfter(t, m, Pow256(m)) == t
  {
    hide BeNat, Incremented, Pow256, BlockAfter;
    var w := Pow256(m);
    var last, low := BlockAfter(t, m, w - 1), t[|t| - m..];
    BlockAfterValue(t, m, w - 1);
    LastBeforeStart(low, last[|t| - m..]);
    BlockAfterStep(t, m, w - 1);
    assert t == t[..|t| - m] + low;
  }

  lemma BlockAfterStep(t: seq<byte>, m: nat, k: nat)
    requires m <= |t|
    ensures BlockAfter(t, m, k + 1) == NextBlock(BlockAfter(t, m, k), m)
  {
  }

  // The number just below low, counted cyclically, increments to low.
  lemma LastBeforeStart(low: seq<byte>, prev: seq<byte>)
    requires |low| == |prev|
    requires var v := BeNat(low) + Pow256(|low|) - 1; BeNat(prev) == if v < Pow256(|low|) then v else v - Pow256(|low|)
    ensures Incremented(prev) == low
  {
    hide Incremented;
    BeNatBound(low);
    IncrementedValue(prev);
    BeNatInjective(Incremented(prev), low);
  }
}
