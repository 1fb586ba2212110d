/** The SFMT-19937 pseudo random number generator (src/common/points.h): the block generator, the array fill
    and the word-by-word interface all deliver one and the same stream. */
module Sfmt {
  import opened Arithmetic

  const N := 156
  const N32 := 624
  const POS1 := 122
  const SL1 := 18
  const SR1 := 11
  const MSK := [0xdfffffef, 0xddfecb7f, 0xbffaffff, 0xbffffff6]

  /** w128_t, bit 0 first; the four 32-bit lanes are bits 0-31, 32-63, 64-95 and 96-127. */
  type W128 = s: seq<bool> | |s| == 128 witness seq(128, _ => false)

  type Word32 = s: seq<bool> | |s| == 32 witness seq(32, _ => false)

  // ---------------------------------------------------------------------------------------------
  // The recursion formula, vectorised and in portable C
  // ---------------------------------------------------------------------------------------------

  predicate MaskBit(k: nat)
    requires k < 128
  {
    MSK[k / 32] / Pow2(k % 32) % 2 == 1
  }

  function Xor(x: seq<bool>, y: seq<bool>): (z: seq<bool>)
    requires |x| == |y|
    ensures |z| == |x|
  {
    seq(|x|, k requires 0 <= k < |x| => x[k] != y[k])
  }

  /** All bits of x moved up, or down, by n; bits are lost at the ends. */
  function Up(x: seq<bool>, n: nat): (z: seq<bool>)
    ensures |z| == |x|
  {
    seq(|x|, k requires 0 <= k < |x| => k >= n && x[k - n])
  }

  function Down(x: seq<bool>, n: nat): (z: seq<bool>)
    ensures |z| == |x|
  {
    seq(|x|, k requires 0 <= k < |x| => k + n < |x| && x[k + n])
  }

  /** The same in every lane by itself. */
  function LanesUp(x: W128, n: nat): W128 {
    seq(128, k requires 0 <= k < 128 => k % 32 >= n && x[k - n])
  }

  function LanesDown(x: W128, n: nat): W128 {
    seq(128, k requires 0 <= k < 128 => k % 32 + n < 32 && x[k + n])
  }

  function Masked(x: W128): W128 {
    seq(128, k requires 0 <= k < 128 => x[k] && MaskBit(k))
  }

  /** mm_recursion, in the order of its instructions; SL2 and SR2 shift by one byte. */
  function MmRecursion(a: W128, b: W128, c: W128, d: W128): W128 {
    var y: W128 := LanesDown(b, SR1);
    var z := Down(c, 8);
    var v: W128 := LanesUp(d, SL1);
    var z := Xor(z, a);
    var z := Xor(z, v);
    var x := Up(a, 8);
    var y := Masked(y);
    var z := Xor(z, x);
    Xor(z, y)
  }

  /** lshift128 and rshift128 with a shift of one byte, on the two 64-bit halves. */
  function Lshift128(x: W128): W128
  {
    var tl, th := x[..64], x[64..];
    var ol := Up(tl, 8);
    var oh := Up(th, 8);
    var oh := seq(64, k requires 0 <= k < 64 => oh[k] || Down(tl, 56)[k]);
    ol + oh
  }

  function Rshift128(x: W128): W128
  {
    var tl, th := x[..64], x[64..];
    var oh := Down(th, 8);
    var ol := Down(tl, 8);
    var ol := seq(64, k requires 0 <= k < 64 => ol[k] || Up(th, 56)[k]);
    ol + oh
  }

  lemma ShiftsAgree(x: W128)
    ensures Lshift128(x) == Up(x, 8) && Rshift128(x) == Down(x, 8)
  {
    forall k | 0 <= k < 128 ensures Lshift128(x)[k] == Up(x, 8)[k] && Rshift128(x)[k] == Down(x, 8)[k] {
      var tl, th := x[..64], x[64..];
      if k < 64 {
        assert Lshift128(x)[k] == Up(tl, 8)[k];
        assert Rshift128(x)[k] == (Down(tl, 8)[k] || Up(th, 56)[k]);
        assert k + 8 < 64 ==> tl[k + 8] == x[k + 8];
        assert k >= 56 ==> th[k - 56] == x[k + 8];
      } else {
        assert Lshift128(x)[k] == (Up(th, 8)[k - 64] || Down(tl, 56)[k - 64]);
        assert Rshift128(x)[k] == Down(th, 8)[k - 64];
        assert k >= 72 ==> th[k - 72] == x[k - 8];
        assert k < 72 ==> tl[k - 8] == x[k - 8];
      }
    }
  }

  /** One lane of do_recursion, the version for machines without vector instructions. */
  function DoLane(a: W128, b: W128, c: W128, d: W128, i: nat): (r: Word32)
    requires i < 4
  {
    var x, y := Lshift128(a), Rshift128(c);
    var m: Word32 := seq(32, k requires 0 <= k < 32 => Down(Lane(b, i), SR1)[k] && MSK[i] / Pow2(k) % 2 == 1);
    Xor(Xor(Xor(Xor(Lane(a, i), Lane(x, i)), m), Lane(y, i)), Up(Lane(d, i), SL1))
  }

  function Lane(w: W128, i: nat): Word32
    requires i < 4
  {
    w[32 * i..32 * i + 32]
  }

  /** The vector instructions and the portable code compute the same recursion. */
  lemma RecursionsAgree(a: W128, b: W128, c: W128, d: W128, i: nat)
    requires i < 4
    ensures Lane(MmRecursion(a, b, c, d), i) == DoLane(a, b, c, d, i)
  {
    hide Lshift128, Rshift128, MaskBit;
    ShiftsAgree(a);
    ShiftsAgree(c);
    var r, r' := MmRecursion(a, b, c, d), DoLane(a, b, c, d, i);
    forall k | 0 <= k < 32 ensures Lane(r, i)[k] == r'[k] {
      BitsAgree(a, b, c, d, i, k);
    }
  }

  lemma BitsAgree(a: W128, b: W128, c: W128, d: W128, i: nat, k: nat)
    requires i < 4 && k < 32 && Lshift128(a) == Up(a, 8) && Rshift128(c) == Down(c, 8)
    ensures MmRecursion(a, b, c, d)[32 * i + k] == DoLane(a, b, c, d, i)[k]
  {
    hide Lshift128, Rshift128, Pow2;
    var n := 32 * i + k;
    assert n % 32 == k && n / 32 == i;
    assert Lane(Up(a, 8), i)[k] == Up(a, 8)[n] && Lane(Down(c, 8), i)[k] == Down(c, 8)[n];
    assert Lane(a, i)[k] == a[n];
    assert Up(Lane(d, i), SL1)[k] == LanesUp(d, SL1)[n];
    assert Down(Lane(b, i), SR1)[k] == LanesDown(b, SR1)[n];
  }

  // ---------------------------------------------------------------------------------------------
  // The stream
  // ---------------------------------------------------------------------------------------------

  const ZERO: W128 := seq(128, _ => false)

  type State = s: seq<W128> | |s| == N witness seq(N, _ => ZERO)

  /** The sequence that the recursion defines from its first N terms. */
  function Term(s: State, k: nat): W128 {
    if k < N then s[k] else MmRecursion(Term(s, k - N), Term(s, k - N + POS1), Term(s, k - 2), Term(s, k - 1))
  }

  lemma TermIs(s: State, k: nat)
    ensures k < N ==> Term(s, k) == s[k]
    ensures k >= N ==> Term(s, k) == MmRecursion(Term(s, k - N), Term(s, k - N + POS1), Term(s, k - 2), Term(s, k - 1))
  {}

  /** n consecutive terms, from the k-th. */
  function Terms(s: State, k: nat, n: nat): (r: seq<W128>)
    ensures |r| == n && forall i :: 0 <= i < n ==> r[i] == Term(s, k + i)
  {
    if n == 0 then [] else Terms(s, k, n - 1) + [Term(s, k + n - 1)]
  }

  function Window(s: State, k: nat): State {
    Terms(s, k, N)
  }

  lemma WindowAt(s: State, k: nat, i: nat)
    requires i < N
    ensures Window(s, k)[i] == Term(s, k + i)
  {
    hide Term;
  }

  /** The sequence goes on from any of its windows. */
  lemma {:induction false} StreamGoesOn(s: State, k: nat, j: nat)
    ensures Term(Window(s, k), j) == Term(s, k + j)
  {
    hide MmRecursion;
    if j >= N {
      StreamGoesOn(s, k, j - N);
      StreamGoesOn(s, k, j - N + POS1);
      StreamGoesOn(s, k, j - 2);
      StreamGoesOn(s, k, j - 1);
    }
  }

  lemma WindowOfWindow(s: State, k: nat, j: nat)
    ensures Window(Window(s, k), j) == Window(s, k + j)
  {
    hide Term, Window, Terms;
    var w := Window(s, k);
    forall i | 0 <= i < N ensures Window(w, j)[i] == Window(s, k + j)[i] {
      StreamGoesOn(s, k, j + i);
      WindowAt(w, j, i);
      WindowAt(s, k + j, i);
      assert k + (j + i) == k + j + i;
    }
    assert Window(w, j) == Window(s, k + j);
  }

  /** The state after m calls of gen_rand_all. */
  function Blocks(s: State, m: nat): State {
    if m == 0 then s else Window(Blocks(s, m - 1), N)
  }

  /** Block after block, gen_rand_all walks along the same sequence: what gen_rand_array writes in one call
      is what repeated gen_rand_all would have left in the state. */
  lemma {:induction false} BlocksFollowStream(s: State, m: nat)
    ensures Blocks(s, m) == Window(s, N * m)
    ensures forall k :: 0 <= k < N ==> Blocks(s, m)[k] == Term(s, N * m + k)
  {
    hide MmRecursion;
    if m == 0 {
      assert Window(s, 0) == s;
    } else {
      BlocksFollowStream(s, m - 1);
      WindowOfWindow(s, N * (m - 1), N);
    }
  }

  /** What gen_rand_array writes to place k is what gen_rand_all leaves in the state in the block that k falls in. */
  lemma ArrayIsBlocks(s: State, k: nat)
    ensures Term(s, N + k) == Blocks(s, k / N + 1)[k % N]
  {
    hide Term, Blocks;
    BlocksFollowStream(s, k / N + 1);
    assert N + k == N * (k / N + 1) + k % N;
  }

  /** The stream as 32-bit numbers: psfmt32, extended over all later blocks. */
  function Stream32(s: State, k: nat): Word32 {
    Lane(Term(s, k / 4), k % 4)
  }

  /** Four numbers after each other, the first one lowest, are one term, in the order of memory. */
  lemma NumbersSpellTerms(s: State, m: nat, q: nat, k: nat)
    requires q < 4 && k < 32
    ensures Stream32(s, 4 * m + q)[k] == Term(s, m)[32 * q + k]
  {
    hide Term, Lane;
    DivUnique(4 * m + q, 4, m, q);
    LaneAt(Term(s, m), q, k);
  }

  lemma LaneAt(w: W128, q: nat, k: nat)
    requires q < 4 && k < 32
    ensures Lane(w, q)[k] == w[32 * q + k]
  {}

  /** The state t at position j continues the stream of s at position i. */
  ghost predicate SameFuture(t: State, j: nat, s: State, i: nat) {
    forall k: nat {:trigger Stream32(t, k)} :: j <= k ==> Stream32(t, k) == Stream32(s, i + (k - j))
  }

  lemma Stream32Is(s: State, k: nat)
    requires k < N32
    ensures Stream32(s, k) == Lane(s[k / 4], k % 4)
  {}

  lemma FutureAt(t: State, j: nat, s: State, i: nat, k: nat)
    requires SameFuture(t, j, s, i) && j <= k
    ensures Stream32(t, k) == Stream32(s, i + (k - j))
  {}

  lemma WindowFuture(s: State, n: nat, j: nat)
    ensures SameFuture(Window(s, n), j, s, 4 * n + j)
  {
    hide MmRecursion;
    forall k: nat | j <= k ensures Stream32(Window(s, n), k) == Stream32(s, 4 * n + j + (k - j)) {
      StreamGoesOn(s, n, k / 4);
      assert (4 * n + k) / 4 == n + k / 4;
    }
  }

  // ---------------------------------------------------------------------------------------------
  // The certificate of the period
  // ---------------------------------------------------------------------------------------------

  /** An odd number of the first n bits is set. */
  predicate Odd(x: seq<bool>, n: nat)
    requires n <= |x|
  {
    n > 0 && (x[n-1] != Odd(x, n - 1))
  }

  function FoldBy(x: Word32, n: nat): Word32 {
    Xor(x, Down(x, n))
  }

  /** The source's check: xor of the masked lanes, folded down to bit 0.  It folds a signed int, whose sign
      extension never reaches bit 0. */
  function Inner(w: W128, parity: W128): bool {
    var p := And(w, parity);
    var x := Xor(Xor(Xor(Lane(p, 0), Lane(p, 1)), Lane(p, 2)), Lane(p, 3));
    FoldBy(FoldBy(FoldBy(FoldBy(FoldBy(x, 16), 8), 4), 2), 1)[0]
  }

  function And(x: W128, y: W128): W128 {
    seq(128, k requires 0 <= k < 128 => x[k] && y[k])
  }

  lemma {:induction false} OddOfSplit(x: seq<bool>, y: seq<bool>, z: seq<bool>, n: nat)
    requires n <= |x| && n <= |y| && n <= |z| && forall k :: 0 <= k < n ==> z[k] == (x[k] != y[k])
    ensures Odd(z, n) == (Odd(x, n) != Odd(y, n))
  {
    if n > 0 { OddOfSplit(x, y, z, n - 1); }
  }

  lemma {:induction false} OddOfSum(x: seq<bool>, m: nat, n: nat)
    requires m + n <= |x|
    ensures Odd(x, m + n) == (Odd(x, m) != Odd(x[m..], n))
  {
    if n > 0 { OddOfSum(x, m, n - 1); }
  }

  /** Folding halves the number of bits that count. */
  lemma FoldHalves(x: Word32, n: nat)
    requires 2 * n <= 32
    ensures Odd(FoldBy(x, n), n) == Odd(x, 2 * n)
  {
    OddOfSum(x, n, n);
    OddOfSplit(x, x[n..], FoldBy(x, n), n);
  }

  /** The certificate is the parity of all 128 masked bits. */
  lemma InnerIsParity(w: W128, parity: W128)
    ensures Inner(w, parity) == Odd(And(w, parity), 128)
  {
    hide Odd, FoldBy, And;
    var p := And(w, parity);
    var x1 := Xor(Lane(p, 0), Lane(p, 1));
    var x2 := Xor(x1, Lane(p, 2));
    var x := Xor(x2, Lane(p, 3));
    OddOfSplit(Lane(p, 0), Lane(p, 1), x1, 32);
    OddOfSplit(x1, Lane(p, 2), x2, 32);
    OddOfSplit(x2, Lane(p, 3), x, 32);
    OddOfLanes(p);
    var y16 := FoldBy(x, 16);
    var y8 := FoldBy(y16, 8);
    var y4 := FoldBy(y8, 4);
    var y2 := FoldBy(y4, 2);
    FoldHalves(x, 16);
    FoldHalves(y16, 8);
    FoldHalves(y8, 4);
    FoldHalves(y4, 2);
    FoldHalves(y2, 1);
    OddOfOne(FoldBy(y2, 1));
  }

  lemma OddOfOne(x: Word32)
    ensures Odd(x, 1) == x[0]
  {}

  lemma OddOfLanes(p: W128)
    ensures Odd(p, 128)
         == (((Odd(Lane(p, 0), 32) != Odd(Lane(p, 1), 32)) != Odd(Lane(p, 2), 32)) != Odd(Lane(p, 3), 32))
  {
    hide Odd;
    OddOfSum(p, 96, 32);
    OddOfSum(p, 64, 32);
    OddOfSum(p, 32, 32);
    OddOfTake(p, Lane(p, 0), 32);
    OddOfTake(p[32..], Lane(p, 1), 32);
    OddOfTake(p[64..], Lane(p, 2), 32);
    OddOfTake(p[96..], Lane(p, 3), 32);
  }

  lemma {:induction false} OddOfTake(x: seq<bool>, y: seq<bool>, n: nat)
    requires n <= |x| && n <= |y| && forall k :: 0 <= k < n ==> x[k] == y[k]
    ensures Odd(x, n) == Odd(y, n)
  {
    if n > 0 { OddOfTake(x, y, n - 1); }
  }

  lemma {:induction false} OddOfFlip(x: seq<bool>, y: seq<bool>, j: nat, n: nat)
    requires j < n <= |x| && |y| == |x| && y == x[j := !x[j]]
    ensures Odd(y, n) == !Odd(x, n)
  {
    if j < n - 1 { OddOfFlip(x, y, j, n - 1); } else { OddOfTake(x, y, n - 1); }
  }

  /** Flipping one bit of the state that the parity vector looks at changes the certificate. */
  lemma FlipCertifies(w: W128, parity: W128, j: nat)
    requires j < 128 && parity[j]
    ensures Inner(w[j := !w[j]], parity) == !Inner(w, parity)
  {
    hide Inner, Odd;
    InnerIsParity(w, parity);
    InnerIsParity(w[j := !w[j]], parity);
    OddOfFlip(And(w, parity), And(w[j := !w[j]], parity), j, 128);
  }

  /** struct sfmt_state_t */
  class Generator {
    const sfmt: array<W128>
    var idx: nat
    const parity: W128

    ghost predicate Valid()
      reads this, sfmt
    {
      sfmt.Length == N && true in parity
    }

    /** What init_gen_rand and init_by_array do once the words are seeded. */
    constructor (words: State, parity: W128)
      requires true in parity
      ensures Valid() && fresh(sfmt) && idx == N32 && this.parity == parity
      ensures Inner(sfmt[0], parity) && sfmt[1..] == words[1..]
    {
      hide Inner;
      sfmt := new W128[N](i requires 0 <= i < N => words[i]);
      this.parity := parity;
      idx := N32;
      new;
      PeriodCertification();
    }

    /** period_certification: the check holds afterwards, and at most one bit, of the first word, was flipped:
        the lowest one that the parity vector looks at. */
    method PeriodCertification()
      requires Valid()
      modifies sfmt
      ensures Inner(sfmt[0], parity)
      ensures sfmt[1..] == old(sfmt[1..])
      ensures old(Inner(sfmt[0], parity)) ==> sfmt[0] == old(sfmt[0])
      ensures !old(Inner(sfmt[0], parity)) ==>
                exists j :: 0 <= j < 128 && parity[j] && true !in parity[..j]
                            && sfmt[0] == old(sfmt[0])[j := !old(sfmt[0])[j]]
    {
      hide Inner;
      var w := sfmt[0];
      if Inner(w, parity) { return; }
      var i := 0;
      while i < 4
        invariant 0 <= i <= 4 && sfmt[..] == old(sfmt[..])
        invariant forall k :: 0 <= k < 32 * i ==> !parity[k]
      {
        var j := 0;
        while j < 32
          invariant 0 <= j <= 32 && sfmt[..] == old(sfmt[..])
          invariant forall k :: 0 <= k < 32 * i + j ==> !parity[k]
        {
          if parity[32 * i + j] {
            FlipCertifies(w, parity, 32 * i + j);
            sfmt[0] := w[32 * i + j := !w[32 * i + j]];
            return;
          }
          j := j + 1;
        }
        i := i + 1;
      }
    }

    /** gen_rand_all: the state becomes the next N terms. */
    method GenRandAll()
      requires Valid()
      modifies sfmt
      ensures sfmt[..] == Window(old(sfmt[..]), N)
    {
      hide MmRecursion, Term, Terms;
      ghost var s: State := sfmt[..];
      TermIs(s, N - 2);
      TermIs(s, N - 1);
      var r1, r2 := sfmt[N-2], sfmt[N-1];
      var i := 0;
      while i < N - POS1
        invariant 0 <= i <= N - POS1
        invariant r1 == Term(s, N + i - 2) && r2 == Term(s, N + i - 1)
        invariant forall k :: 0 <= k < i ==> sfmt[k] == Term(s, N + k)
        invariant forall k :: i <= k < N ==> sfmt[k] == s[k]
      {
        TermIs(s, i);
        TermIs(s, i + POS1);
        TermIs(s, N + i);
        var r := MmRecursion(sfmt[i], sfmt[i + POS1], r1, r2);
        sfmt[i] := r;
        r1, r2 := r2, r;
        i := i + 1;
      }
      while i < N
        invariant N - POS1 <= i <= N
        invariant r1 == Term(s, N + i - 2) && r2 == Term(s, N + i - 1)
        invariant forall k :: 0 <= k < i ==> sfmt[k] == Term(s, N + k)
        invariant forall k :: i <= k < N ==> sfmt[k] == s[k]
      {
        TermIs(s, i);
        TermIs(s, N + i);
        var r := MmRecursion(sfmt[i], sfmt[i + POS1 - N], r1, r2);
        sfmt[i] := r;
        r1, r2 := r2, r;
        i := i + 1;
      }
    }

    /** The first two loops of gen_rand_array: as long as the recursion still reaches back into the state. */
    method FillFromState(a: array<W128>) returns (r1: W128, r2: W128)
      requires Valid() && a != sfmt && N <= a.Length
      modifies a
      ensures r1 == Term(sfmt[..], 2 * N - 2) && r2 == Term(sfmt[..], 2 * N - 1)
      ensures forall k :: 0 <= k < N ==> a[k] == Term(sfmt[..], N + k)
      ensures forall k :: N <= k < a.Length ==> a[k] == old(a[k])
    {
      hide MmRecursion, Term, Terms;
      ghost var s: State := sfmt[..];
      ghost var b := a[..];
      TermIs(s, N - 2);
      TermIs(s, N - 1);
      r1, r2 := sfmt[N-2], sfmt[N-1];
      var i := 0;
      while i < N - POS1
        modifies a
        invariant 0 <= i <= N - POS1
        invariant r1 == Term(s, N + i - 2) && r2 == Term(s, N + i - 1)
        invariant forall k :: 0 <= k < i ==> a[k] == Term(s, N + k)
        invariant forall k :: i <= k < a.Length ==> a[k] == b[k]
      {
        TermIs(s, i);
        TermIs(s, i + POS1);
        TermIs(s, N + i);
        var r := MmRecursion(sfmt[i], sfmt[i + POS1], r1, r2);
        a[i] := r;
        r1, r2 := r2, r;
        i := i + 1;
      }
      while i < N
        modifies a
        invariant N - POS1 <= i <= N
        invariant r1 == Term(s, N + i - 2) && r2 == Term(s, N + i - 1)
        invariant forall k :: 0 <= k < i ==> a[k] == Term(s, N + k)
        invariant forall k :: i <= k < a.Length ==> a[k] == b[k]
      {
        TermIs(s, i);
        TermIs(s, N + i);
        var r := MmRecursion(sfmt[i], a[i + POS1 - N], r1, r2);
        a[i] := r;
        r1, r2 := r2, r;
        i := i + 1;
      }
    }

    /** gen_rand_array: the array receives the next `size` terms, without going through the state, and the
        state is left as the last N of them. */
    method GenRandArray(a: array<W128>, size: nat)
      requires Valid() && a != sfmt && N <= size <= a.Length
      modifies sfmt, a
      ensures forall k :: 0 <= k < size ==> a[k] == Term(old(sfmt[..]), N + k)
      ensures forall k :: size <= k < a.Length ==> a[k] == old(a[k])
      ensures sfmt[..] == Window(old(sfmt[..]), size)
    {
      hide MmRecursion, Term, Terms;
      ghost var s: State := sfmt[..];
      ghost var b := a[..];
      var r1, r2 := FillFromState(a);
      var i := N;
      while i < size - N
        modifies a
        invariant N <= i <= size && (i == N || i <= size - N)
        invariant r1 == Term(s, N + i - 2) && r2 == Term(s, N + i - 1)
        invariant forall k :: 0 <= k < i ==> a[k] == Term(s, N + k)
        invariant forall k :: i <= k < a.Length ==> a[k] == b[k]
      {
        TermIs(s, N + i);
        var r := MmRecursion(a[i - N], a[i + POS1 - N], r1, r2);
        a[i] := r;
        r1, r2 := r2, r;
        i := i + 1;
      }
      var j := 0;
      while j < 2 * N - size
        modifies sfmt
        invariant 0 <= j <= N && j <= if size < 2 * N then 2 * N - size else 0
        invariant forall k :: 0 <= k < j ==> sfmt[k] == Term(s, size + k)
      {
        sfmt[j] := a[j + size - N];
        j := j + 1;
      }
      while i < size
        invariant N <= i <= size && j == i - (size - N)
        invariant r1 == Term(s, N + i - 2) && r2 == Term(s, N + i - 1)
        invariant forall k :: 0 <= k < i ==> a[k] == Term(s, N + k)
        invariant forall k :: i <= k < a.Length ==> a[k] == b[k]
        invariant forall k :: 0 <= k < j ==> sfmt[k] == Term(s, size + k)
      {
        TermIs(s, N + i);
        var r := MmRecursion(a[i - N], a[i + POS1 - N], r1, r2);
        a[i] := r;
        sfmt[j] := r;
        j := j + 1;
        r1, r2 := r2, r;
        i := i + 1;
      }
    }

    /** gen_rand32 returns the number at the current place of the stream and moves one place on. */
    method GenRand32() returns (r: Word32)
      requires Valid() && idx <= N32
      modifies this`idx, sfmt
      ensures Valid() && idx <= N32
      ensures r == Stream32(old(sfmt[..]), old(idx))
      ensures SameFuture(sfmt[..], idx, old(sfmt[..]), old(idx) + 1)
    {
      hide Stream32, SameFuture, Window, Lane, Term, Terms;
      ghost var s: State := sfmt[..];
      FutureSelf(s, idx);
      if idx >= N32 {
        GenRandAll();
        WindowFuture(s, N, 0);
        idx := 0;
      }
      Stream32Is(sfmt[..], idx);
      FutureAt(sfmt[..], idx, s, old(idx), idx);
      FutureStep(sfmt[..], idx, s, old(idx));
      r := Lane(sfmt[idx / 4], idx % 4);
      idx := idx + 1;
    }

    /** gen_rand64 returns the next two numbers of the stream, the first of them in the low half. */
    method GenRand64() returns (lo: Word32, hi: Word32)
      requires Valid() && idx <= N32 && idx % 2 == 0
      modifies this`idx, sfmt
      ensures Valid() && idx <= N32 && idx % 2 == 0
      ensures lo == Stream32(old(sfmt[..]), old(idx)) && hi == Stream32(old(sfmt[..]), old(idx) + 1)
      ensures SameFuture(sfmt[..], idx, old(sfmt[..]), old(idx) + 2)
    {
      hide Stream32, SameFuture, Window, Lane, Term, Terms;
      ghost var s: State := sfmt[..];
      FutureSelf(s, idx);
      if idx >= N32 {
        GenRandAll();
        WindowFuture(s, N, 0);
        idx := 0;
      }
      assert (idx + 1) / 4 == idx / 4 && (idx + 1) % 4 == idx % 4 + 1 by { PairInWord(idx); }
      Stream32Is(sfmt[..], idx);
      Stream32Is(sfmt[..], idx + 1);
      FutureAt(sfmt[..], idx, s, old(idx), idx);
      FutureAt(sfmt[..], idx, s, old(idx), idx + 1);
      FutureStep(sfmt[..], idx, s, old(idx));
      FutureStep(sfmt[..], idx + 1, s, old(idx) + 1);
      lo, hi := Lane(sfmt[idx / 4], idx % 4), Lane(sfmt[idx / 4], idx % 4 + 1);
      idx := idx + 2;
    }

    /** fill_array32 writes the same numbers that `size` calls of gen_rand32 would return from the end of the
        current block, and leaves the generator where they would.  The array is seen as 128-bit words, as the
        source casts it. */
    method FillArray32(a: array<W128>, size: nat)
      requires Valid() && a != sfmt && N32 <= size && size % 4 == 0 && size / 4 <= a.Length
      modifies this`idx, sfmt, a
      ensures Valid() && idx == N32
      ensures forall k {:trigger Stream32(old(sfmt[..]), k)} :: N32 <= k < N32 + size ==>
                Lane(a[(k - N32) / 4], k % 4) == Stream32(old(sfmt[..]), k)
      ensures SameFuture(sfmt[..], idx, old(sfmt[..]), N32 + size)
    {
      hide SameFuture, Window, Term, Lane;
      ghost var s: State := sfmt[..];
      GenRandArray(a, size / 4);
      idx := N32;
      WindowFuture(s, size / 4, N32);
    }
  }

  lemma PairInWord(k: nat)
    requires k % 2 == 0
    ensures (k + 1) / 4 == k / 4 && (k + 1) % 4 == k % 4 + 1
  {}

  lemma FutureSelf(s: State, i: nat)
    ensures SameFuture(s, i, s, i)
  {}

  lemma FutureStep(t: State, j: nat, s: State, i: nat)
    requires SameFuture(t, j, s, i)
    ensures SameFuture(t, j + 1, s, i + 1)
  {}
}
