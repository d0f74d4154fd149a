/** Iteration of one step of a linear feedback shift register.

    The word type and its exclusive-or stay abstract here, so the same facts serve the
    32-bit register of modules/misc/hss_crc32.c and the 16-bit one of modules/misc/hss_crc16.c. */
module ShiftRegister {

  /** `n` applications of `step` to `w`. */
  function Iter<W>(step: W -> W, w: W, n: nat): W
    decreases n, w
  {
    if n == 0 then w else Iter(step, step(w), n - 1)
  }

  lemma {:induction false} IterAdd<W>(step: W -> W, w: W, m: nat, n: nat)
    ensures Iter(step, w, m + n) == Iter(step, Iter(step, w, m), n)
    decreases m
  {
    if m != 0 {
      IterAdd(step, step(w), m - 1, n);
    }
  }

  function EightTimes<W>(step: W -> W, w: W): W { step(step(step(step(step(step(step(step(w)))))))) }

  lemma IterEight<W>(step: W -> W, w: W)
    ensures Iter(step, w, 8) == EightTimes(step, w)
  {
    var w2 := step(step(w));
    var w4 := step(step(w2));
    var w6 := step(step(w4));
    IterTwo(step, w, 6); IterTwo(step, w2, 4); IterTwo(step, w4, 2); IterTwo(step, w6, 0);
  }

  lemma IterTwo<W>(step: W -> W, w: W, n: nat)
    ensures Iter(step, w, n + 2) == Iter(step, step(step(w)), n)
    ensures Iter(step, w, 0) == w
  {
    var k := n + 2;
    assert Iter(step, w, k) == Iter(step, step(w), k - 1);
  }

  /** A register step that distributes over `xor` still does after `n` rounds. */
  lemma {:induction false} IterLinear<W(!new)>(step: W -> W, xor: (W, W) -> W, a: W, b: W, n: nat)
    requires forall x, y {:trigger step(xor(x, y))} :: step(xor(x, y)) == xor(step(x), step(y))
    ensures Iter(step, xor(a, b), n) == xor(Iter(step, a, n), Iter(step, b, n))
    decreases n
  {
    if n != 0 {
      IterLinear(step, xor, step(a), step(b), n - 1);
    }
  }

  /** A register step that loses nothing still loses nothing after `n` rounds. */
  lemma {:induction false} IterInjective<W(!new)>(step: W -> W, a: W, b: W, n: nat)
    requires forall x, y :: step(x) == step(y) ==> x == y
    requires Iter(step, a, n) == Iter(step, b, n)
    ensures a == b
    decreases n
  {
    if n != 0 {
      IterInjective(step, step(a), step(b), n - 1);
    }
  }

  /** Feeding a message one symbol at a time. */
  function Feed<W, B>(absorb: (W, B) -> W, w: W, message: seq<B>): W
    decreases message
  {
    if message == [] then w else Feed(absorb, absorb(w, message[0]), message[1..])
  }

  lemma {:induction false} FeedConcat<W, B>(absorb: (W, B) -> W, w: W, a: seq<B>, b: seq<B>)
    ensures Feed(absorb, w, a + b) == Feed(absorb, Feed(absorb, w, a), b)
    decreases a
  {
    if a == [] {
      assert a + b == b;
    } else {
      assert (a + b)[1..] == a[1..] + b;
      FeedConcat(absorb, absorb(w, a[0]), a[1..], b);
    }
  }

  lemma FeedTwoMore<W, B>(absorb: (W, B) -> W, w: W, s: seq<B>, a: B, b: B)
    ensures Feed(absorb, w, s + [a, b]) == absorb(absorb(Feed(absorb, w, s), a), b)
  {
    var v := Feed(absorb, w, s);
    FeedConcat(absorb, w, s, [a, b]);
    assert [a, b][1..] == [b] && [b][1..] == [];
    assert Feed(absorb, v, [a, b]) == Feed(absorb, absorb(v, a), [b]);
  }

  /** If absorbing any one symbol loses nothing, neither does a whole message. */
  lemma {:induction false} FeedInjective<W(!new), B(!new)>(absorb: (W, B) -> W, w: W, v: W, message: seq<B>)
    requires forall x, y, b :: absorb(x, b) == absorb(y, b) ==> x == y
    requires Feed(absorb, w, message) == Feed(absorb, v, message)
    ensures w == v
    decreases message
  {
    if message != [] {
      FeedInjective(absorb, absorb(w, message[0]), absorb(v, message[0]), message[1..]);
    }
  }

  /** The symbols of `s` joined into one word, the first symbol outermost. */
  function Pack<B, W>(join: (B, W) -> W, empty: W, s: seq<B>): W
    decreases s
  {
    if s == [] then empty else join(s[0], Pack(join, empty, s[1..]))
  }

  /** `fits(w, n)`: `w` has room for `n` symbols more. */
  lemma {:induction false} PackFits<B(!new), W(!new)>(join: (B, W) -> W, empty: W, fits: (W, int) -> bool,
      s: seq<B>, n: nat)
    requires fits(empty, n)
    requires forall b, w, m {:trigger join(b, w), fits(w, m)} :: 0 < m <= n && fits(w, m) ==> fits(join(b, w), m - 1)
    requires |s| <= n
    ensures fits(Pack(join, empty, s), n - |s|)
    decreases s
  {
    if s != [] {
      PackFits(join, empty, fits, s[1..], n);
    }
  }

  lemma {:induction false} PackInjective<B(!new), W(!new)>(join: (B, W) -> W, empty: W, fits: (W, int) -> bool,
      s: seq<B>, t: seq<B>, n: nat)
    requires fits(empty, n)
    requires forall b, w, m {:trigger join(b, w), fits(w, m)} :: 0 < m <= n && fits(w, m) ==> fits(join(b, w), m - 1)
    requires forall a, b, v, w, m {:trigger join(a, v), join(b, w), fits(v, m)} ::
      0 < m <= n && fits(v, m) && fits(w, m) && join(a, v) == join(b, w) ==> a == b && v == w
    requires |s| == |t| <= n
    requires Pack(join, empty, s) == Pack(join, empty, t)
    ensures s == t
    decreases s
  {
    if s != [] {
      PackFits(join, empty, fits, s[1..], n);
      PackFits(join, empty, fits, t[1..], n);
      PackInjective(join, empty, fits, s[1..], t[1..], n);
      assert s == [s[0]] + s[1..] && t == [t[0]] + t[1..];
    }
  }
}
