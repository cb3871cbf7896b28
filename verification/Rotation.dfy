/** Round-robin cursors: a counter that only grows, taken modulo the number of choices. */
module Rotation {
  import opened Arithmetic

  /** The counter is a machine word. */
  const WORD: nat := 0x1_0000_0000_0000_0000

  /** `n` choices in turn, from position `start`. */
  function Turns(n: nat, start: nat): (r: seq<nat>)
    requires n > 0
    ensures |r| == n
  {
    seq(n, i requires 0 <= i < n => (start + i) % n)
  }

  /** Position `i` steps further on, for less than one full turn. */
  function Ahead(n: nat, r: nat, i: nat): nat {
    if r + i < n then r + i else r + i - n
  }

  lemma {:induction false} ModAhead(n: nat, start: nat, i: nat)
    requires 0 < n && i < n
    ensures (start + i) % n == Ahead(n, start % n, i) < n
  {
    var r, q := start % n, start / n;
    assert start == q * n + r;
    if r + i < n {
      DivModIs(start + i, n, q, r + i);
    } else {
      assert (q + 1) * n == q * n + n;
      DivModIs(start + i, n, q + 1, r + i - n);
    }
  }

  lemma NextMod(x: nat, n: nat)
    requires n > 0
    ensures (x % n + 1) % n == (x + 1) % n
  {
    var r, q := x % n, x / n;
    assert x == q * n + r;
    if r + 1 < n {
      DivModIs(x + 1, n, q, r + 1);
      ModSmall(r + 1, n);
    } else {
      assert (q + 1) * n == q * n + n;
      DivModIs(x + 1, n, q + 1, 0);
    }
  }

  lemma ModSmall(x: nat, n: nat)
    requires x < n
    ensures x % n == x
  {
  }

  /** The step at which position `j` is reached from `r`. */
  function StepTo(n: nat, r: nat, j: nat): nat
    requires r < n && j < n
  {
    if r <= j then j - r else j + n - r
  }

  /** Every choice comes up exactly once. */
  lemma TurnsCoverOnce(n: nat, start: nat, j: nat)
    requires j < n
    ensures exists i :: 0 <= i < n && Turns(n, start)[i] == j
    ensures forall i, k :: 0 <= i < n && 0 <= k < n && Turns(n, start)[i] == Turns(n, start)[k] ==> i == k
  {
    var turns := Turns(n, start);
    forall i | 0 <= i < n ensures turns[i] == Ahead(n, start % n, i) {
      ModAhead(n, start, i);
    }
    var i := StepTo(n, start % n, j);
    assert turns[i] == j;
  }

  /** The position chosen by the `q`-th of a series of queries, when the cursor first reads `cursor`. */
  function Chosen(n: nat, cursor: nat, q: nat): (c: nat)
    requires n > 0
    ensures c < n
  {
    ((cursor + q) % WORD) % n
  }

  /** Each of `n` choices comes up exactly once among `n` consecutive queries. */
  ghost predicate Fair(n: nat, cursor: nat)
    requires n > 0
  {
    forall j :: 0 <= j < n ==> Served(n, cursor, j)
  }

  ghost predicate Served(n: nat, cursor: nat, j: nat)
    requires n > 0
  {
    exists q :: 0 <= q < n && Chosen(n, cursor, q) == j && OnlyAt(n, cursor, q)
  }

  /** No other of the `n` queries makes the choice of query `q`. */
  ghost predicate OnlyAt(n: nat, cursor: nat, q: nat)
    requires n > 0
  {
    forall p :: 0 <= p < n && Chosen(n, cursor, p) == Chosen(n, cursor, q) ==> p == q
  }

  lemma ChosenBeforeWrap(n: nat, cursor: nat, q: nat)
    requires 0 < n && q < n && cursor + q < WORD
    ensures Chosen(n, cursor, q) == Ahead(n, cursor % n, q)
  {
    ModSmall(cursor + q, WORD);
    ModAhead(n, cursor, q);
  }

  lemma ChosenAfterWrap(n: nat, cursor: nat, q: nat)
    requires 0 < n <= WORD && q < n && cursor < WORD <= cursor + q
    ensures Chosen(n, cursor, q) == cursor + q - WORD
  {
    DivModIs(cursor + q, WORD, 1, cursor + q - WORD);
    ModSmall(cursor + q - WORD, n);
  }

  /** The cursor's residue at the wrap, in terms of the word size. */
  lemma WordResidue(n: nat, cursor: nat, a: nat)
    requires 0 < a < n && cursor + a == WORD
    ensures WORD % n == 0 <==> cursor % n == n - a
  {
    ModAhead(n, cursor, a);
  }

  lemma FairBeforeWrap(n: nat, cursor: nat)
    requires 0 < n && cursor + n <= WORD
    ensures Fair(n, cursor)
  {
    hide Chosen;
    var r := cursor % n;
    forall p | 0 <= p < n ensures Chosen(n, cursor, p) == Ahead(n, r, p) {
      ChosenBeforeWrap(n, cursor, p);
    }
    forall j | 0 <= j < n ensures Served(n, cursor, j) {
      assert Chosen(n, cursor, StepTo(n, r, j)) == j;
    }
  }

  /** Across the wrap the first `a` choices follow on from the residue, the others start again at 0. */
  lemma ChosenAcrossWrap(n: nat, cursor: nat, a: nat, p: nat)
    requires 0 < a < n <= WORD && cursor + a == WORD && p < n
    ensures Chosen(n, cursor, p) == if p < a then Ahead(n, cursor % n, p) else p - a
  {
    hide Chosen;
    if p < a {
      ChosenBeforeWrap(n, cursor, p);
    } else {
      ChosenAfterWrap(n, cursor, p);
    }
  }

  lemma FairAcrossWrap(n: nat, cursor: nat, a: nat)
    requires 0 < a < n <= WORD && cursor + a == WORD && cursor % n == n - a
    ensures Fair(n, cursor)
  {
    hide Chosen;
    forall p | 0 <= p < n ensures Chosen(n, cursor, p) == if p < a then n - a + p else p - a {
      ChosenAcrossWrap(n, cursor, a, p);
    }
    forall j | 0 <= j < n ensures Served(n, cursor, j) {
      assert Chosen(n, cursor, if j < n - a then j + a else j - (n - a)) == j;
    }
  }

  lemma UnfairAcrossWrap(n: nat, cursor: nat, a: nat)
    requires 0 < a < n <= WORD && cursor + a == WORD && cursor % n != n - a
    ensures !Fair(n, cursor)
  {
    hide Chosen;
    var r := cursor % n;
    var missing := if r < n - a then n - 1 else r - 1;
    forall p | 0 <= p < n ensures Chosen(n, cursor, p) != missing {
      ChosenAcrossWrap(n, cursor, a, p);
    }
    assert !Served(n, cursor, missing);
  }

  /** A series of n queries favours nobody exactly when the cursor does not wrap during it, or when n
      divides the word size. */
  lemma FairExactly(n: nat, cursor: nat)
    requires 0 < n <= WORD && cursor < WORD
    ensures Fair(n, cursor) <==> cursor + n <= WORD || WORD % n == 0
  {
    hide Fair;
    if cursor + n <= WORD {
      FairBeforeWrap(n, cursor);
    } else {
      var a := WORD - cursor;
      WordResidue(n, cursor, a);
      if cursor % n == n - a {
        FairAcrossWrap(n, cursor, a);
      } else {
        UnfairAcrossWrap(n, cursor, a);
      }
    }
  }
}
