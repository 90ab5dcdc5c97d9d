/**
 * The swap matrix of the Curve 3pool adapter tests: every repetition, every
 * token to swap from, every different token to swap to and every amount,
 * each run as one numbered call of the on-chain swap checker.
 *
 * A scenario is named by its coordinates: the repetition and the positions in
 * the from-token list, the to-token list and the amount list. `Sweep` is the
 * list of coordinates the harness visits, in order; `SweepMembers` and
 * `SweepOrdered` characterise it independently of its recursion, as exactly
 * the off-diagonal coordinates in strictly increasing lexicographic order.
 */
module Scenarios {
  import opened Abi

  const TOKEN_SYMBOLS: seq<string> := ["DAI", "USDC", "USDT"]
  const AMOUNTS: seq<int> := [8, 1001, 96420, 1337000]
  const AMOUNTS_BIG: seq<int> := [10200300, 200300400, 100900800700]
  const CHECK_UNDERQUOTING: bool := true

  /** `range(n)`: the indices 0, 1, ..., n - 1 in order. */
  function Range(n: nat): (r: seq<nat>)
    ensures |r| == n
    ensures forall k :: 0 <= k < n ==> r[k] == k
  {
    if n == 0 then [] else Range(n - 1) + [n - 1]
  }

  /** The index of every configured token. */
  const ALL_TOKENS: seq<nat> := Range(|TOKEN_SYMBOLS|)

  lemma AllTokensValue()
    ensures ALL_TOKENS == [0, 1, 2]
  {
  }

  /** Coordinates of one scenario: repetition, from-position, to-position, amount position. */
  datatype Cell = Cell(rep: nat, fromPos: nat, toPos: nat, amountPos: nat)

  /** Strict lexicographic order on coordinates, repetition first. */
  predicate Before(c: Cell, d: Cell)
  {
    || c.rep < d.rep
    || (c.rep == d.rep && c.fromPos < d.fromPos)
    || (c.rep == d.rep && c.fromPos == d.fromPos && c.toPos < d.toPos)
    || (c.rep == d.rep && c.fromPos == d.fromPos && c.toPos == d.toPos && c.amountPos < d.amountPos)
  }

  predicate StrictlyOrdered(s: seq<Cell>)
  {
    forall p, q :: 0 <= p < q < |s| ==> Before(s[p], s[q])
  }

  /** `c` lies at or after the cursor (repetition `k`, from-position `a`, to-position `b`). */
  predicate NotBefore(c: Cell, k: nat, a: nat, b: nat)
  {
    || c.rep > k
    || (c.rep == k && c.fromPos > a)
    || (c.rep == k && c.fromPos == a && c.toPos >= b)
  }

  /** A cell the sweep must visit: in range, and not pairing a token with itself. */
  predicate Emitted(c: Cell, times: nat, tokensFrom: seq<nat>, tokensTo: seq<nat>, na: nat)
  {
    && c.rep < times && c.fromPos < |tokensFrom| && c.toPos < |tokensTo| && c.amountPos < na
    && tokensFrom[c.fromPos] != tokensTo[c.toPos]
  }

  /** The cells of one (from, to) pair from amount position `m` on. */
  function AmountsFrom(k: nat, a: nat, b: nat, m: nat, na: nat): seq<Cell>
    decreases na - m
  {
    if m >= na then [] else [Cell(k, a, b, m)] + AmountsFrom(k, a, b, m + 1, na)
  }

  /**
   * The cells the harness still visits from the cursor (repetition `k`,
   * from-position `a`, to-position `b`) on, in visiting order: the loops over
   * repetitions, from-tokens, to-tokens and amounts, nested in that order, with
   * a to-token equal to the from-token skipped.
   */
  function SweepFrom(times: nat, tokensFrom: seq<nat>, tokensTo: seq<nat>, na: nat, k: nat, a: nat, b: nat): seq<Cell>
    decreases times - k, |tokensFrom| - a, |tokensTo| - b
  {
    if k >= times then []
    else if a >= |tokensFrom| then SweepFrom(times, tokensFrom, tokensTo, na, k + 1, 0, 0)
    else if b >= |tokensTo| then SweepFrom(times, tokensFrom, tokensTo, na, k, a + 1, 0)
    else if tokensFrom[a] == tokensTo[b] then SweepFrom(times, tokensFrom, tokensTo, na, k, a, b + 1)
    else AmountsFrom(k, a, b, 0, na) + SweepFrom(times, tokensFrom, tokensTo, na, k, a, b + 1)
  }

  /** Every cell the harness visits in `times` repetitions, in visiting order. */
  function Sweep(times: nat, tokensFrom: seq<nat>, tokensTo: seq<nat>, na: nat): seq<Cell>
  {
    SweepFrom(times, tokensFrom, tokensTo, na, 0, 0, 0)
  }

  /** The number of (from, to) position pairs with different tokens at or after position pair (`a`, `b`). */
  function PairsFrom(tokensFrom: seq<nat>, tokensTo: seq<nat>, a: nat, b: nat): nat
    decreases |tokensFrom| - a, |tokensTo| - b
  {
    if a >= |tokensFrom| then 0
    else if b >= |tokensTo| then PairsFrom(tokensFrom, tokensTo, a + 1, 0)
    else (if tokensFrom[a] == tokensTo[b] then 0 else 1) + PairsFrom(tokensFrom, tokensTo, a, b + 1)
  }

  /** The number of (from, to) position pairs with different tokens. */
  function PairCount(tokensFrom: seq<nat>, tokensTo: seq<nat>): nat
  {
    PairsFrom(tokensFrom, tokensTo, 0, 0)
  }

  lemma AppendAssoc<T>(x: seq<T>, y: seq<T>, z: seq<T>)
    ensures (x + y) + z == x + (y + z)
  {
  }

  lemma MulSucc(x: nat, y: nat)
    ensures (x + 1) * y == x * y + y
  {
  }

  lemma OrderedConcat(x: seq<Cell>, y: seq<Cell>)
    requires StrictlyOrdered(x) && StrictlyOrdered(y)
    requires forall c, d :: c in x && d in y ==> Before(c, d)
    ensures StrictlyOrdered(x + y)
  {
    var s := x + y;
    forall p, q | 0 <= p < q < |s|
      ensures Before(s[p], s[q])
    {
      if q < |x| {
        assert s[p] == x[p] && s[q] == x[q];
      } else if p >= |x| {
        assert s[p] == y[p - |x|] && s[q] == y[q - |x|];
      } else {
        assert s[p] == x[p] && x[p] in x;
        assert s[q] == y[q - |x|] && y[q - |x|] in y;
      }
    }
  }

  lemma {:induction false} AmountsFromLength(k: nat, a: nat, b: nat, m: nat, na: nat)
    decreases na - m
    ensures |AmountsFrom(k, a, b, m, na)| == if m >= na then 0 else na - m
  {
    if m < na {
      AmountsFromLength(k, a, b, m + 1, na);
    }
  }

  lemma {:induction false} AmountsFromMember(k: nat, a: nat, b: nat, m: nat, na: nat, c: Cell)
    decreases na - m
    ensures c in AmountsFrom(k, a, b, m, na) <==> c.rep == k && c.fromPos == a && c.toPos == b && m <= c.amountPos < na
  {
    if m < na {
      AmountsFromMember(k, a, b, m + 1, na, c);
      assert c in AmountsFrom(k, a, b, m, na) <==> (c == Cell(k, a, b, m) || c in AmountsFrom(k, a, b, m + 1, na));
    }
  }

  lemma {:induction false} AmountsFromOrdered(k: nat, a: nat, b: nat, m: nat, na: nat)
    decreases na - m
    ensures StrictlyOrdered(AmountsFrom(k, a, b, m, na))
  {
    if m < na {
      AmountsFromOrdered(k, a, b, m + 1, na);
      var rest := AmountsFrom(k, a, b, m + 1, na);
      forall c, d | c in [Cell(k, a, b, m)] && d in rest
        ensures Before(c, d)
      {
        AmountsFromMember(k, a, b, m + 1, na, d);
      }
      OrderedConcat([Cell(k, a, b, m)], rest);
    }
  }

  /** The cells still to visit from a cursor are the off-diagonal cells at or after it. */
  lemma {:induction false} SweepFromMember(times: nat, tokensFrom: seq<nat>, tokensTo: seq<nat>, na: nat,
                                           k: nat, a: nat, b: nat, c: Cell)
    decreases times - k, |tokensFrom| - a, |tokensTo| - b
    ensures c in SweepFrom(times, tokensFrom, tokensTo, na, k, a, b) <==>
      Emitted(c, times, tokensFrom, tokensTo, na) && NotBefore(c, k, a, b)
  {
    if k >= times {
    } else if a >= |tokensFrom| {
      SweepFromMember(times, tokensFrom, tokensTo, na, k + 1, 0, 0, c);
    } else if b >= |tokensTo| {
      SweepFromMember(times, tokensFrom, tokensTo, na, k, a + 1, 0, c);
    } else if tokensFrom[a] == tokensTo[b] {
      SweepFromMember(times, tokensFrom, tokensTo, na, k, a, b + 1, c);
    } else {
      SweepFromMember(times, tokensFrom, tokensTo, na, k, a, b + 1, c);
      AmountsFromMember(k, a, b, 0, na, c);
      var head := AmountsFrom(k, a, b, 0, na);
      var rest := SweepFrom(times, tokensFrom, tokensTo, na, k, a, b + 1);
      assert c in head + rest <==> (c in head || c in rest);
    }
  }

  lemma {:induction false} SweepFromOrdered(times: nat, tokensFrom: seq<nat>, tokensTo: seq<nat>, na: nat,
                                            k: nat, a: nat, b: nat)
    decreases times - k, |tokensFrom| - a, |tokensTo| - b
    ensures StrictlyOrdered(SweepFrom(times, tokensFrom, tokensTo, na, k, a, b))
  {
    if k >= times {
    } else if a >= |tokensFrom| {
      SweepFromOrdered(times, tokensFrom, tokensTo, na, k + 1, 0, 0);
    } else if b >= |tokensTo| {
      SweepFromOrdered(times, tokensFrom, tokensTo, na, k, a + 1, 0);
    } else if tokensFrom[a] == tokensTo[b] {
      SweepFromOrdered(times, tokensFrom, tokensTo, na, k, a, b + 1);
    } else {
      SweepFromOrdered(times, tokensFrom, tokensTo, na, k, a, b + 1);
      AmountsFromOrdered(k, a, b, 0, na);
      var head := AmountsFrom(k, a, b, 0, na);
      var rest := SweepFrom(times, tokensFrom, tokensTo, na, k, a, b + 1);
      forall c, d | c in head && d in rest
        ensures Before(c, d)
      {
        AmountsFromMember(k, a, b, 0, na, c);
        SweepFromMember(times, tokensFrom, tokensTo, na, k, a, b + 1, d);
      }
      OrderedConcat(head, rest);
    }
  }

  lemma {:induction false} SweepFromLength(times: nat, tokensFrom: seq<nat>, tokensTo: seq<nat>, na: nat,
                                           k: nat, a: nat, b: nat)
    decreases times - k, |tokensFrom| - a, |tokensTo| - b
    ensures |SweepFrom(times, tokensFrom, tokensTo, na, k, a, b)| ==
      if k >= times then 0
      else PairsFrom(tokensFrom, tokensTo, a, b) * na + (times - k - 1) * (PairCount(tokensFrom, tokensTo) * na)
  {
    var q := PairCount(tokensFrom, tokensTo) * na;
    if k >= times {
    } else if a >= |tokensFrom| {
      SweepFromLength(times, tokensFrom, tokensTo, na, k + 1, 0, 0);
      if k + 1 < times {
        MulSucc(times - k - 2, q);
      }
    } else if b >= |tokensTo| {
      SweepFromLength(times, tokensFrom, tokensTo, na, k, a + 1, 0);
    } else if tokensFrom[a] == tokensTo[b] {
      SweepFromLength(times, tokensFrom, tokensTo, na, k, a, b + 1);
    } else {
      SweepFromLength(times, tokensFrom, tokensTo, na, k, a, b + 1);
      AmountsFromLength(k, a, b, 0, na);
      MulSucc(PairsFrom(tokensFrom, tokensTo, a, b + 1), na);
    }
  }

  /** The sweep visits exactly the off-diagonal cells: both directions. */
  lemma SweepMembers(times: nat, tokensFrom: seq<nat>, tokensTo: seq<nat>, na: nat)
    ensures forall c :: c in Sweep(times, tokensFrom, tokensTo, na) <==> Emitted(c, times, tokensFrom, tokensTo, na)
  {
    forall c: Cell
      ensures c in Sweep(times, tokensFrom, tokensTo, na) <==> Emitted(c, times, tokensFrom, tokensTo, na)
    {
      SweepFromMember(times, tokensFrom, tokensTo, na, 0, 0, 0, c);
    }
  }

  /** The sweep visits cells in strictly increasing order, so it never repeats one. */
  lemma SweepOrdered(times: nat, tokensFrom: seq<nat>, tokensTo: seq<nat>, na: nat)
    ensures StrictlyOrdered(Sweep(times, tokensFrom, tokensTo, na))
  {
    SweepFromOrdered(times, tokensFrom, tokensTo, na, 0, 0, 0);
  }

  /** The number of scenarios: repetitions times off-diagonal pairs times amounts. */
  lemma SweepLength(times: nat, tokensFrom: seq<nat>, tokensTo: seq<nat>, na: nat)
    ensures |Sweep(times, tokensFrom, tokensTo, na)| == times * (PairCount(tokensFrom, tokensTo) * na)
  {
    SweepFromLength(times, tokensFrom, tokensTo, na, 0, 0, 0);
    if times > 0 {
      MulSucc(times - 1, PairCount(tokensFrom, tokensTo) * na);
    }
  }

  /** The counts in the names of the two swap tests: 120 small-medium swaps and 90 big swaps. */
  lemma TestNameCounts()
    ensures |Sweep(5, ALL_TOKENS, ALL_TOKENS, |AMOUNTS|)| == 120
    ensures |Sweep(5, ALL_TOKENS, ALL_TOKENS, |AMOUNTS_BIG|)| == 90
  {
    AllTokensPairs();
    SweepLength(5, ALL_TOKENS, ALL_TOKENS, |AMOUNTS|);
    SweepLength(5, ALL_TOKENS, ALL_TOKENS, |AMOUNTS_BIG|);
  }

  /** Three distinct tokens give six ordered pairs of different tokens. */
  lemma AllTokensPairs()
    ensures PairCount(ALL_TOKENS, ALL_TOKENS) == 6
  {
    AllTokensValue();
    assert PairsFrom([0, 1, 2], [0, 1, 2], 2, 0) == 2;
    assert PairsFrom([0, 1, 2], [0, 1, 2], 1, 0) == 4;
    assert PairsFrom([0, 1, 2], [0, 1, 2], 0, 0) == 6;
  }

  /** One call of the swap checker: adapter, amount in, tokens, underquoting flag, swap number. */
  datatype TestSwapCall = TestSwapCall(
    adapter: Address, amountIn: int, tokenFrom: Address, tokenTo: Address,
    checkUnderquoting: bool, swapNumber: nat)

  /** The token indices name existing tokens and, for from-tokens, existing decimals. */
  predicate IndicesValid(tokensFrom: seq<nat>, tokensTo: seq<nat>, tokens: seq<Address>, decimals: seq<nat>)
  {
    && (forall a :: 0 <= a < |tokensFrom| ==> tokensFrom[a] < |tokens| && tokensFrom[a] < |decimals|)
    && (forall b :: 0 <= b < |tokensTo| ==> tokensTo[b] < |tokens|)
  }

  /** The positions of `c` lie inside the three lists. */
  predicate InRange(c: Cell, tokensFrom: seq<nat>, tokensTo: seq<nat>, na: nat)
  {
    c.fromPos < |tokensFrom| && c.toPos < |tokensTo| && c.amountPos < na
  }

  /**
   * The call made at cell `c` as the `n`-th swap: from-token, to-token and the
   * amount scaled by the from-token's decimals (`scale` stands for getBigNumber).
   * A cell outside the lists names no call; the sweep never visits one
   * (`SweepMembers`), so the placeholder in that branch is never produced.
   */
  function CallAt(adapter: Address, tokensFrom: seq<nat>, tokensTo: seq<nat>, amounts: seq<int>,
                  tokens: seq<Address>, decimals: seq<nat>, scale: (int, nat) -> int, c: Cell, n: nat): (r: TestSwapCall)
    requires IndicesValid(tokensFrom, tokensTo, tokens, decimals)
    ensures r.adapter == adapter && r.checkUnderquoting && r.swapNumber == n
    ensures InRange(c, tokensFrom, tokensTo, |amounts|) ==>
            && r.tokenFrom == tokens[tokensFrom[c.fromPos]]
            && r.tokenTo == tokens[tokensTo[c.toPos]]
            && r.amountIn == scale(amounts[c.amountPos], decimals[tokensFrom[c.fromPos]])
  {
    if InRange(c, tokensFrom, tokensTo, |amounts|) then
      var i, j := tokensFrom[c.fromPos], tokensTo[c.toPos];
      TestSwapCall(adapter, scale(amounts[c.amountPos], decimals[i]), tokens[i], tokens[j], CHECK_UNDERQUOTING, n)
    else
      TestSwapCall(adapter, 0, 0, 0, CHECK_UNDERQUOTING, n)
  }

  /** The calls made at the cells `cells`, in order, numbered from 1. */
  function CallsAt(adapter: Address, tokensFrom: seq<nat>, tokensTo: seq<nat>, amounts: seq<int>,
                   tokens: seq<Address>, decimals: seq<nat>, scale: (int, nat) -> int, cells: seq<Cell>): (r: seq<TestSwapCall>)
    requires IndicesValid(tokensFrom, tokensTo, tokens, decimals)
    ensures |r| == |cells|
  {
    if cells == [] then []
    else
      CallsAt(adapter, tokensFrom, tokensTo, amounts, tokens, decimals, scale, cells[..|cells| - 1])
      + [CallAt(adapter, tokensFrom, tokensTo, amounts, tokens, decimals, scale, cells[|cells| - 1], |cells|)]
  }

  /** The `n`-th call (from 0) is the call at the `n`-th cell, carrying swap number `n + 1`. */
  lemma {:induction false} CallsAtIndex(adapter: Address, tokensFrom: seq<nat>, tokensTo: seq<nat>, amounts: seq<int>,
                                       tokens: seq<Address>, decimals: seq<nat>, scale: (int, nat) -> int, cells: seq<Cell>, n: nat)
    requires IndicesValid(tokensFrom, tokensTo, tokens, decimals)
    requires n < |cells|
    ensures CallsAt(adapter, tokensFrom, tokensTo, amounts, tokens, decimals, scale, cells)[n]
         == CallAt(adapter, tokensFrom, tokensTo, amounts, tokens, decimals, scale, cells[n], n + 1)
  {
    var init := cells[..|cells| - 1];
    if n < |cells| - 1 {
      assert cells[n] == init[n];
      CallsAtIndex(adapter, tokensFrom, tokensTo, amounts, tokens, decimals, scale, init, n);
    }
  }

  lemma CallsAtAppend(adapter: Address, tokensFrom: seq<nat>, tokensTo: seq<nat>, amounts: seq<int>,
                      tokens: seq<Address>, decimals: seq<nat>, scale: (int, nat) -> int, cells: seq<Cell>, c: Cell)
    requires IndicesValid(tokensFrom, tokensTo, tokens, decimals)
    ensures CallsAt(adapter, tokensFrom, tokensTo, amounts, tokens, decimals, scale, cells + [c])
         == CallsAt(adapter, tokensFrom, tokensTo, amounts, tokens, decimals, scale, cells)
            + [CallAt(adapter, tokensFrom, tokensTo, amounts, tokens, decimals, scale, c, |cells| + 1)]
  {
    assert (cells + [c])[..|cells|] == cells;
  }

  /**
   * testAdapter: for each repetition, each from-token, each other to-token and
   * each amount, one numbered call of the swap checker. The calls are returned
   * in the order they are made.
   */
  method TestAdapter(adapter: Address, tokensFrom: seq<nat>, tokensTo: seq<nat>,
                     tokens: seq<Address>, decimals: seq<nat>, scale: (int, nat) -> int,
                     times: nat := 1, amounts: seq<int> := AMOUNTS)
    returns (calls: seq<TestSwapCall>)
    requires IndicesValid(tokensFrom, tokensTo, tokens, decimals)
    ensures calls == CallsAt(adapter, tokensFrom, tokensTo, amounts, tokens, decimals, scale,
                             Sweep(times, tokensFrom, tokensTo, |amounts|))
    ensures |calls| == times * (PairCount(tokensFrom, tokensTo) * |amounts|)
  {
    var na := |amounts|;
    ghost var whole := Sweep(times, tokensFrom, tokensTo, na);
    calls := [];
    var swapsAmount := 0;
    ghost var done: seq<Cell> := [];
    for k := 0 to times
      invariant swapsAmount == |calls|
      invariant done + SweepFrom(times, tokensFrom, tokensTo, na, k, 0, 0) == whole
      invariant calls == CallsAt(adapter, tokensFrom, tokensTo, amounts, tokens, decimals, scale, done)
    {
      for a := 0 to |tokensFrom|
        invariant swapsAmount == |calls|
        invariant done + SweepFrom(times, tokensFrom, tokensTo, na, k, a, 0) == whole
        invariant calls == CallsAt(adapter, tokensFrom, tokensTo, amounts, tokens, decimals, scale, done)
      {
        var i := tokensFrom[a];
        for b := 0 to |tokensTo|
          invariant swapsAmount == |calls|
          invariant done + SweepFrom(times, tokensFrom, tokensTo, na, k, a, b) == whole
          invariant calls == CallsAt(adapter, tokensFrom, tokensTo, amounts, tokens, decimals, scale, done)
        {
          var j := tokensTo[b];
          if i == j {
            continue;
          }
          ghost var rest := SweepFrom(times, tokensFrom, tokensTo, na, k, a, b + 1);
          AppendAssoc(done, AmountsFrom(k, a, b, 0, na), rest);
          for c := 0 to na
            invariant swapsAmount == |calls|
            invariant done + (AmountsFrom(k, a, b, c, na) + rest) == whole
            invariant calls == CallsAt(adapter, tokensFrom, tokensTo, amounts, tokens, decimals, scale, done)
          {
            var cell := Cell(k, a, b, c);
            AppendAssoc(done, [cell], AmountsFrom(k, a, b, c + 1, na) + rest);
            AppendAssoc([cell], AmountsFrom(k, a, b, c + 1, na), rest);
            swapsAmount := swapsAmount + 1;
            CallsAtAppend(adapter, tokensFrom, tokensTo, amounts, tokens, decimals, scale, done, cell);
            calls := calls + [TestSwapCall(adapter, scale(amounts[c], decimals[i]), tokens[i], tokens[j],
                                           CHECK_UNDERQUOTING, swapsAmount)];
            done := done + [cell];
          }
          assert AmountsFrom(k, a, b, na, na) + rest == rest;
        }
      }
    }
    assert SweepFrom(times, tokensFrom, tokensTo, na, times, 0, 0) == [];
    assert done + [] == done;
    SweepLength(times, tokensFrom, tokensTo, na);
  }

  /**
   * What testAdapter promises call by call: the `n`-th call (from 0) carries
   * swap number `n + 1` and the underquoting flag, swaps token `tokens[i]` for
   * `tokens[j]` with `i != j`, and scales its amount by the decimals of `i`.
   */
  lemma TestAdapterCalls(adapter: Address, tokensFrom: seq<nat>, tokensTo: seq<nat>, amounts: seq<int>,
                         tokens: seq<Address>, decimals: seq<nat>, scale: (int, nat) -> int, times: nat, n: nat)
    requires IndicesValid(tokensFrom, tokensTo, tokens, decimals)
    requires n < |Sweep(times, tokensFrom, tokensTo, |amounts|)|
    ensures var c := Sweep(times, tokensFrom, tokensTo, |amounts|)[n];
            var call := CallsAt(adapter, tokensFrom, tokensTo, amounts, tokens, decimals, scale,
                                Sweep(times, tokensFrom, tokensTo, |amounts|))[n];
            && Emitted(c, times, tokensFrom, tokensTo, |amounts|)
            && call.swapNumber == n + 1
            && call.checkUnderquoting
            && call.adapter == adapter
            && call.tokenFrom == tokens[tokensFrom[c.fromPos]]
            && call.tokenTo == tokens[tokensTo[c.toPos]]
            && call.amountIn == scale(amounts[c.amountPos], decimals[tokensFrom[c.fromPos]])
  {
    var cells := Sweep(times, tokensFrom, tokensTo, |amounts|);
    SweepMembers(times, tokensFrom, tokensTo, |amounts|);
    assert cells[n] in cells;
    CallsAtIndex(adapter, tokensFrom, tokensTo, amounts, tokens, decimals, scale, cells, n);
  }
}
