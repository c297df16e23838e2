/**
  Folds over sequences and iterated steps, over any carrier. The checksum proofs
  are made here, over function parameters, so that none of them unfolds the
  register arithmetic.
 */
module Folds {

  function Fold<W, B>(f: (W, B) -> W, r: W, s: seq<B>): W
    decreases |s|
  {
    if s == [] then r else Fold(f, f(r, s[0]), s[1..])
  }

  lemma {:induction false} FoldAppend<W, B>(f: (W, B) -> W, r: W, s: seq<B>, t: seq<B>)
    ensures Fold(f, r, s + t) == Fold(f, Fold(f, r, s), t)
    decreases |s|
  {
    if s == [] {
      assert s + t == t;
    } else {
      FoldAppend(f, f(r, s[0]), s[1..], t);
      assert (s + t)[1..] == s[1..] + t;
    }
  }

  lemma FoldOne<W, B>(f: (W, B) -> W, r: W, b: B)
    ensures Fold(f, r, [b]) == f(r, b)
  {
    assert [b][1..] == [];
  }

  lemma FoldPrefix<W, B>(f: (W, B) -> W, r: W, s: seq<B>, i: nat)
    requires i < |s|
    ensures Fold(f, r, s[..i + 1]) == f(Fold(f, r, s[..i]), s[i])
  {
    assert s[..i + 1] == s[..i] + [s[i]];
    FoldAppend(f, r, s[..i], [s[i]]);
    FoldOne(f, Fold(f, r, s[..i]), s[i]);
  }

  function Flatten<B, C>(bits: B -> seq<C>, s: seq<B>): seq<C> {
    if s == [] then [] else bits(s[0]) + Flatten(bits, s[1..])
  }

  lemma FlattenFour<B, C>(bits: B -> seq<C>, a: B, b: B, c: B, d: B)
    ensures Flatten(bits, [a, b, c, d]) == bits(a) + (bits(b) + (bits(c) + bits(d)))
  {
    assert [d][1..] == [] && Flatten(bits, [d]) == bits(d);
    assert [c, d][1..] == [d] && Flatten(bits, [c, d]) == bits(c) + bits(d);
    assert [b, c, d][1..] == [c, d] && Flatten(bits, [b, c, d]) == bits(b) + (bits(c) + bits(d));
    assert [a, b, c, d][1..] == [b, c, d];
  }

  lemma FourParts<C>(w: seq<C>)
    requires |w| == 32
    ensures w[..8] + (w[8..16] + (w[16..24] + w[24..])) == w
  {}

  lemma Windowed<C>(w: seq<C>, at: nat)
    requires at + 32 <= |w|
    ensures w[..at] + w[at..at + 32] + w[at + 32..] == w
  {}

  /** Folding over chunks is folding over their concatenation. */
  lemma {:induction false} FoldChunks<W(!new), B(!new), C(!new)>(
      bit: (W, C) -> W, step: (W, B) -> W, bits: B -> seq<C>, r: W, s: seq<B>)
    requires forall a, b :: Fold(bit, a, bits(b)) == step(a, b)
    ensures Fold(step, r, s) == Fold(bit, r, Flatten(bits, s))
    decreases |s|
  {
    if s != [] {
      FoldAppend(bit, r, bits(s[0]), Flatten(bits, s[1..]));
      FoldChunks(bit, step, bits, step(r, s[0]), s[1..]);
    }
  }

  /** A fold of steps that are injective in the state is injective in the state. */
  lemma {:induction false} FoldInjective<W(!new), B(!new)>(f: (W, B) -> W, x: W, y: W, s: seq<B>)
    requires forall a, c, b :: f(a, b) == f(c, b) ==> a == c
    requires Fold(f, x, s) == Fold(f, y, s)
    ensures x == y
    decreases |s|
  {
    if s != [] { FoldInjective(f, f(x, s[0]), f(y, s[0]), s[1..]); }
  }

  function After<W, B>(f: (W, B) -> W, r: W, b0: B, b1: B, b2: B, b3: B): W { f(f(f(f(r, b0), b1), b2), b3) }

  lemma FoldFour<W, B>(f: (W, B) -> W, r: W, s: seq<B>)
    requires |s| == 4
    ensures Fold(f, r, s) == After(f, r, s[0], s[1], s[2], s[3])
  {
    assert s == [s[0]] + ([s[1]] + ([s[2]] + [s[3]]));
    FoldAppend(f, r, [s[0]], [s[1]] + ([s[2]] + [s[3]]));
    FoldOne(f, r, s[0]);
    var r1 := f(r, s[0]);
    FoldAppend(f, r1, [s[1]], [s[2]] + [s[3]]);
    FoldOne(f, r1, s[1]);
    var r2 := f(r1, s[1]);
    FoldAppend(f, r2, [s[2]], [s[3]]);
    FoldOne(f, r2, s[2]);
    FoldOne(f, f(r2, s[2]), s[3]);
  }

  lemma SameFour<W, B>(f: (W, B) -> W, r: W, a: seq<B>, b: seq<B>)
    requires |a| == 4 && |b| == 4 && Fold(f, r, a) == Fold(f, r, b)
    requires After(f, r, a[0], a[1], a[2], a[3]) == After(f, r, b[0], b[1], b[2], b[3]) ==>
      a[0] == b[0] && a[1] == b[1] && a[2] == b[2] && a[3] == b[3]
    ensures a == b
  {
    FoldFour(f, r, a);
    FoldFour(f, r, b);
  }

  /** Folding over a message with a window in it. */
  lemma FoldWindow<W, B>(f: (W, B) -> W, r: W, before: seq<B>, window: seq<B>, after: seq<B>)
    ensures Fold(f, r, before + window + after) == Fold(f, Fold(f, Fold(f, r, before), window), after)
  {
    FoldAppend(f, r, before + window, after);
    FoldAppend(f, r, before, window);
  }

  function Iter<W>(n: nat, f: W -> W, r: W): W { if n == 0 then r else Iter(n - 1, f, f(r)) }

  lemma {:induction false} IterLinear<W(!new)>(n: nat, f: W -> W, op: (W, W) -> W, x: W, y: W)
    requires forall a, b :: f(op(a, b)) == op(f(a), f(b))
    ensures Iter(n, f, op(x, y)) == op(Iter(n, f, x), Iter(n, f, y))
  {
    if n > 0 { IterLinear(n - 1, f, op, f(x), f(y)); }
  }

  lemma {:induction false} IterInjective<W(!new)>(n: nat, f: W -> W, x: W, y: W)
    requires forall a, b :: f(a) == f(b) ==> a == b
    requires Iter(n, f, x) == Iter(n, f, y)
    ensures x == y
  {
    if n > 0 { IterInjective(n - 1, f, f(x), f(y)); }
  }

  /** The n leading bits of a word, most significant first. */
  function Leading<W>(n: nat, top: W -> bool, shl: W -> W, c: W): seq<bool> {
    if n == 0 then [] else [top(c)] + Leading(n - 1, top, shl, shl(c))
  }

  lemma Leading8<W>(top: W -> bool, shl: W -> W, c0: W, c1: W, c2: W, c3: W, c4: W, c5: W, c6: W, c7: W)
    requires shl(c0) == c1 && shl(c1) == c2 && shl(c2) == c3 && shl(c3) == c4
    requires shl(c4) == c5 && shl(c5) == c6 && shl(c6) == c7
    ensures Leading(8, top, shl, c0) == [top(c0), top(c1), top(c2), top(c3), top(c4), top(c5), top(c6), top(c7)]
  {
    assert Leading(1, top, shl, c7) == [top(c7)];
    assert Leading(2, top, shl, c6) == [top(c6), top(c7)];
    assert Leading(3, top, shl, c5) == [top(c5), top(c6), top(c7)];
    assert Leading(4, top, shl, c4) == [top(c4), top(c5), top(c6), top(c7)];
    assert Leading(5, top, shl, c3) == [top(c3), top(c4), top(c5), top(c6), top(c7)];
    assert Leading(6, top, shl, c2) == [top(c2), top(c3), top(c4), top(c5), top(c6), top(c7)];
  }

  /** Feeding bits one at a time is adding them all in first and then stepping. */
  lemma {:induction false} FeedAbsorbs<W(!new)>(
      n: nat, bit: (W, bool) -> W, step: W -> W, xor: (W, W) -> W, top: W -> bool, shl: W -> W, r: W, c: W)
    requires forall x, y :: xor(bit(x, top(y)), shl(y)) == step(xor(x, y))
    ensures xor(Fold(bit, r, Leading(n, top, shl, c)), Iter(n, shl, c)) == Iter(n, step, xor(r, c))
  {
    if n > 0 {
      var bits := Leading(n, top, shl, c);
      assert bits[1..] == Leading(n - 1, top, shl, shl(c));
      FeedAbsorbs(n - 1, bit, step, xor, top, shl, bit(r, top(c)), shl(c));
    }
  }

  /** Eight bits of a word that are then shifted out. */
  lemma FeedEight<W(!new)>(
      bit: (W, bool) -> W, step: W -> W, xor: (W, W) -> W, top: W -> bool, shl: W -> W, zero: W, r: W, c: W)
    requires forall x, y :: xor(bit(x, top(y)), shl(y)) == step(xor(x, y))
    requires Iter(8, shl, c) == zero && forall x :: xor(x, zero) == x
    ensures Fold(bit, r, Leading(8, top, shl, c)) == Iter(8, step, xor(r, c))
  {
    FeedAbsorbs(8, bit, step, xor, top, shl, r, c);
  }

  lemma Iter8<W>(f: W -> W, x0: W, x1: W, x2: W, x3: W, x4: W, x5: W, x6: W, x7: W, x8: W)
    requires f(x0) == x1 && f(x1) == x2 && f(x2) == x3 && f(x3) == x4
    requires f(x4) == x5 && f(x5) == x6 && f(x6) == x7 && f(x7) == x8
    ensures Iter(8, f, x0) == x8
  {
    assert Iter(4, f, x4) == x8;
    assert Iter(6, f, x2) == x8;
  }
}
