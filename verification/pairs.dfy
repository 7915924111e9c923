/** Pool selection: keep the Solana pools a token trades in, rank them by liquidity and pick
    one, either the top pool or the one the user chose. */
module Pairs {
  import opened Candles

  const TargetChain := "solana"
  const UnknownName := "Unknown"

  /** One trading pool as the pair-discovery API lists it; missing fields are `None`. */
  datatype Pair = Pair(chainId: string, liquidityUsd: Option<real>, dexId: string, pairAddress: string,
                       baseName: Option<string>, baseSymbol: Option<string>)

  /** The pair-discovery reply: an exception, or a body whose `pairs` entry may be missing. */
  datatype PairsReply = Failed | Reply(pairs: Option<seq<Pair>>)

  /** What the user typed at the prompt: nothing, a number, or something `int` rejects
      (an interrupted or failed prompt behaves the same). */
  datatype Choice = Blank | Entered(n: int) | Unparsable

  /** The selected pool's address with the base token's name and symbol. */
  datatype Selection = Selection(pairAddress: string, name: string, symbol: string)

  /** Liquidity in USD; a pool that reports none counts as 0. */
  function Liquidity(p: Pair): real
  {
    if p.liquidityUsd.Some? then p.liquidityUsd.value else 0.0
  }

  /** The Solana pools, in the order the API listed them. */
  function SolanaPairs(ps: seq<Pair>): (r: seq<Pair>)
    ensures |r| <= |ps|
  {
    if ps == [] then []
    else (if ps[0].chainId == TargetChain then [ps[0]] else []) + SolanaPairs(ps[1..])
  }

  /** The filter keeps exactly the Solana pools. */
  lemma {:induction false} SolanaPairsMembers(ps: seq<Pair>)
    ensures forall p :: p in SolanaPairs(ps) <==> p in ps && p.chainId == TargetChain
    decreases |ps|
  {
    if ps != [] {
      SolanaPairsMembers(ps[1..]);
      assert ps == [ps[0]] + ps[1..];
    }
  }

  /** One pool is kept exactly when it is a Solana pool. */
  lemma SolanaPairsSingle(p: Pair)
    ensures SolanaPairs([p]) == if p.chainId == TargetChain then [p] else []
  {
    assert [p][1..] == [];
  }

  /** Filtering distributes over concatenation, so the Solana pools keep the reply's order
      and each appears as often as it was listed. */
  lemma {:induction false} SolanaPairsAppend(a: seq<Pair>, b: seq<Pair>)
    ensures SolanaPairs(a + b) == SolanaPairs(a) + SolanaPairs(b)
    decreases |a|
  {
    if a == [] {
      assert a + b == b;
    } else {
      var head := if a[0].chainId == TargetChain then [a[0]] else [];
      assert (a + b)[0] == a[0] && (a + b)[1..] == a[1..] + b;
      calc {
        SolanaPairs(a + b);
        head + SolanaPairs(a[1..] + b);
        { SolanaPairsAppend(a[1..], b); }
        head + (SolanaPairs(a[1..]) + SolanaPairs(b));
        (head + SolanaPairs(a[1..])) + SolanaPairs(b);
        SolanaPairs(a) + SolanaPairs(b);
      }
    }
  }

  predicate Descending(r: seq<Pair>)
  {
    forall i, j :: 0 <= i < j < |r| ==> Liquidity(r[i]) >= Liquidity(r[j])
  }

  /** A pool at least as liquid as every pool of a ranking can head it. */
  lemma DescendingCons(x: Pair, s: seq<Pair>)
    requires Descending(s)
    requires forall q :: q in s ==> Liquidity(q) <= Liquidity(x)
    ensures Descending([x] + s)
  {
    var r := [x] + s;
    forall i, j | 0 <= i < j < |r| ensures Liquidity(r[i]) >= Liquidity(r[j]) {
      assert r[j] == s[j - 1] && r[j] in s;
      if i > 0 { assert r[i] == s[i - 1]; }
    }
  }

  /** The head of a ranking outranks its tail with a poorer pool added. */
  lemma HeadDominates(sorted: seq<Pair>, p: Pair, rest: seq<Pair>)
    requires Descending(sorted) && sorted != []
    requires Liquidity(p) < Liquidity(sorted[0])
    requires multiset(rest) == multiset(sorted[1..]) + multiset{p}
    ensures forall q :: q in rest ==> Liquidity(q) <= Liquidity(sorted[0])
  {
    forall q | q in rest ensures Liquidity(q) <= Liquidity(sorted[0]) {
      assert q in multiset(rest);
      if q != p {
        assert q in multiset(sorted[1..]);
        var j :| 0 <= j < |sorted[1..]| && sorted[1..][j] == q;
        assert sorted[j + 1] == q;
      }
    }
  }

  /** The pools of liquidity `v`, in the order they appear. */
  function WithLiquidity(ps: seq<Pair>, v: real): (r: seq<Pair>)
    ensures |r| <= |ps|
  {
    if ps == [] then []
    else (if Liquidity(ps[0]) == v then [ps[0]] else []) + WithLiquidity(ps[1..], v)
  }

  lemma WithLiquidityCons(x: Pair, s: seq<Pair>, v: real)
    ensures WithLiquidity([x] + s, v) == (if Liquidity(x) == v then [x] else []) + WithLiquidity(s, v)
  {
    assert ([x] + s)[0] == x && ([x] + s)[1..] == s;
  }

  /** Putting a richer head in front of a ranking keeps a poorer pool first among its ties. */
  lemma TiesBehindRicherHead(p: Pair, sorted: seq<Pair>, rest: seq<Pair>, v: real)
    requires sorted != [] && Liquidity(p) < Liquidity(sorted[0])
    requires WithLiquidity(rest, v) == (if Liquidity(p) == v then [p] else []) + WithLiquidity(sorted[1..], v)
    ensures WithLiquidity([sorted[0]] + rest, v) == (if Liquidity(p) == v then [p] else []) + WithLiquidity(sorted, v)
  {
    var head := sorted[0];
    var tail := WithLiquidity(sorted[1..], v);
    WithLiquidityCons(head, rest, v);
    assert sorted == [head] + sorted[1..];
    WithLiquidityCons(head, sorted[1..], v);
    if Liquidity(p) == v {
      assert WithLiquidity(sorted, v) == tail;
    } else {
      assert WithLiquidity(rest, v) == tail;
    }
  }

  /** Inserts a pool in front of every pool with no more liquidity than it, behind the
      richer ones; among pools of its own liquidity it comes first. */
  function InsertByLiquidity(p: Pair, sorted: seq<Pair>): (r: seq<Pair>)
    requires Descending(sorted)
    ensures |r| == |sorted| + 1
    ensures multiset(r) == multiset(sorted) + multiset{p}
    ensures Descending(r)
  {
    if sorted == [] || Liquidity(p) >= Liquidity(sorted[0]) then
      DescendingCons(p, sorted);
      [p] + sorted
    else
      var rest := InsertByLiquidity(p, sorted[1..]);
      assert sorted == [sorted[0]] + sorted[1..];
      HeadDominates(sorted, p, rest);
      DescendingCons(sorted[0], rest);
      [sorted[0]] + rest
  }

  /** The pools in order of decreasing liquidity; pools with equal liquidity keep their
      listed order, as a stable sort does. */
  function RankByLiquidity(ps: seq<Pair>): (r: seq<Pair>)
    ensures |r| == |ps|
    ensures multiset(r) == multiset(ps)
    ensures Descending(r)
  {
    if ps == [] then []
    else
      assert ps == [ps[0]] + ps[1..];
      InsertByLiquidity(ps[0], RankByLiquidity(ps[1..]))
  }

  /** Among pools of the same liquidity the inserted pool comes first, the others keeping
      their order. */
  lemma {:induction false} InsertKeepsTies(p: Pair, sorted: seq<Pair>, v: real)
    requires Descending(sorted)
    ensures WithLiquidity(InsertByLiquidity(p, sorted), v)
      == (if Liquidity(p) == v then [p] else []) + WithLiquidity(sorted, v)
    decreases |sorted|
  {
    if sorted == [] || Liquidity(p) >= Liquidity(sorted[0]) {
      WithLiquidityCons(p, sorted, v);
    } else {
      InsertKeepsTies(p, sorted[1..], v);
      TiesBehindRicherHead(p, sorted, InsertByLiquidity(p, sorted[1..]), v);
    }
  }

  /** The ranking is stable: pools of equal liquidity stay in the order they were listed. */
  lemma {:induction false} RankKeepsTies(ps: seq<Pair>, v: real)
    ensures WithLiquidity(RankByLiquidity(ps), v) == WithLiquidity(ps, v)
    decreases |ps|
  {
    if ps != [] {
      RankKeepsTies(ps[1..], v);
      InsertKeepsTies(ps[0], RankByLiquidity(ps[1..]), v);
    }
  }

  /** Two pools tied behind a richer one keep their listed order, so typing 2 picks the
      earlier of them. */
  lemma RankTieExample(a: Pair, b: Pair, c: Pair)
    requires Liquidity(a) == 5.0 && Liquidity(b) == 1.0 && Liquidity(c) == 1.0
    ensures RankByLiquidity([a, b, c]) == [a, b, c]
  {
    var ps := [a, b, c];
    assert ps[1..] == [b, c] && ps[1..][1..] == [c];
    assert [c][1..] == [];
    assert RankByLiquidity([c]) == [c];
    assert RankByLiquidity([b, c]) == [b, c];
  }

  /** Pool `i` has the greatest liquidity of the list and no earlier pool matches it. */
  predicate FirstMaximal(ps: seq<Pair>, i: int)
  {
    0 <= i < |ps|
    && (forall j :: 0 <= j < |ps| ==> Liquidity(ps[j]) <= Liquidity(ps[i]))
    && (forall j :: 0 <= j < i ==> Liquidity(ps[j]) < Liquidity(ps[i]))
  }

  lemma FirstMaximalHead(ps: seq<Pair>, k: int)
    requires |ps| > 1 && FirstMaximal(ps[1..], k)
    requires Liquidity(ps[0]) >= Liquidity(ps[k + 1])
    ensures FirstMaximal(ps, 0)
  {
    forall j | 0 <= j < |ps| ensures Liquidity(ps[j]) <= Liquidity(ps[0]) {
      if j > 0 { assert ps[j] == ps[1..][j - 1]; }
    }
  }

  lemma FirstMaximalShift(ps: seq<Pair>, k: int)
    requires |ps| > 1 && FirstMaximal(ps[1..], k)
    requires Liquidity(ps[0]) < Liquidity(ps[k + 1])
    ensures FirstMaximal(ps, k + 1)
  {
    assert ps[k + 1] == ps[1..][k];
    forall j | 0 <= j < |ps| ensures Liquidity(ps[j]) <= Liquidity(ps[k + 1]) {
      if j > 0 { assert ps[j] == ps[1..][j - 1]; }
    }
    forall j | 0 <= j < k + 1 ensures Liquidity(ps[j]) < Liquidity(ps[k + 1]) {
      if j > 0 { assert ps[j] == ps[1..][j - 1]; }
    }
  }

  /** The head of a ranking after an insertion: the new pool if it is at least as liquid as
      the old head, the old head otherwise. */
  lemma RankHead(ps: seq<Pair>)
    requires |ps| > 1
    ensures var top := RankByLiquidity(ps[1..])[0];
      RankByLiquidity(ps)[0] == if Liquidity(ps[0]) >= Liquidity(top) then ps[0] else top
  {
    assert |RankByLiquidity(ps[1..])| == |ps| - 1;
  }

  /** The top-ranked pool is the first listed pool of greatest liquidity. */
  lemma {:induction false} TopIsFirstMaximal(ps: seq<Pair>)
    requires ps != []
    ensures exists i :: FirstMaximal(ps, i) && ps[i] == RankByLiquidity(ps)[0]
    decreases |ps|
  {
    if |ps| == 1 {
      assert FirstMaximal(ps, 0);
    } else {
      TopIsFirstMaximal(ps[1..]);
      var top := RankByLiquidity(ps[1..])[0];
      var k :| FirstMaximal(ps[1..], k) && ps[1..][k] == top;
      RankHead(ps);
      if Liquidity(ps[0]) >= Liquidity(top) {
        FirstMaximalHead(ps, k);
      } else {
        FirstMaximalShift(ps, k);
      }
    }
  }

  /** The position picked among `count` ranked pools: in interactive mode with more than one
      pool, the number typed (1 when nothing was typed) if it is in range; the top pool
      otherwise. */
  function ChosenIndex(count: nat, interactive: bool, choice: Choice): (i: nat)
    requires count > 0
    ensures i < count
    ensures i > 0 <==> interactive && count > 1 && choice.Entered? && 2 <= choice.n <= count
    ensures i > 0 ==> i == choice.n - 1
  {
    if interactive && count > 1 then
      var idx := match choice
        case Blank => 1 - 1
        case Entered(n) => n - 1
        case Unparsable => 0;
      if 0 <= idx < count then idx else 0
    else 0
  }

  /** The selection reported for a pool: its address, and the base token's name and symbol,
      each falling back to "Unknown" when the listing lacks it. */
  function SelectionOf(p: Pair): (r: Selection)
    ensures r.pairAddress == p.pairAddress
    ensures p.baseName.None? ==> r.name == UnknownName
    ensures p.baseName.Some? ==> r.name == p.baseName.value
    ensures p.baseSymbol.None? ==> r.symbol == UnknownName
    ensures p.baseSymbol.Some? ==> r.symbol == p.baseSymbol.value
  {
    Selection(p.pairAddress,
              if p.baseName.Some? then p.baseName.value else UnknownName,
              if p.baseSymbol.Some? then p.baseSymbol.value else UnknownName)
  }

  /** `get_best_pair`: nothing when the lookup failed or found no Solana pool; otherwise the
      chosen pool of the ranking. */
  function GetBestPair(reply: PairsReply, interactive: bool, choice: Choice): (r: Option<Selection>)
    ensures r.Some? <==> reply.Reply? && reply.pairs.Some? && SolanaPairs(reply.pairs.value) != []
  {
    match reply
    case Failed => None
    case Reply(pairs) =>
      if pairs.None? || pairs.value == [] then None
      else
        var sol := SolanaPairs(pairs.value);
        if sol == [] then None
        else
          var ranked := RankByLiquidity(sol);
          Some(SelectionOf(ranked[ChosenIndex(|ranked|, interactive, choice)]))
  }

  /** The first maximal Solana pool is a listed Solana pool that no Solana pool of the
      reply outranks. */
  lemma FirstMaximalSolana(pairs: seq<Pair>, i: int)
    requires FirstMaximal(SolanaPairs(pairs), i)
    ensures SolanaPairs(pairs)[i] in pairs && SolanaPairs(pairs)[i].chainId == TargetChain
    ensures forall p :: p in pairs && p.chainId == TargetChain ==> Liquidity(p) <= Liquidity(SolanaPairs(pairs)[i])
  {
    var sol := SolanaPairs(pairs);
    SolanaPairsMembers(pairs);
    assert sol[i] in sol;
    forall p | p in pairs && p.chainId == TargetChain ensures Liquidity(p) <= Liquidity(sol[i]) {
      assert p in sol;
      var j :| 0 <= j < |sol| && sol[j] == p;
    }
  }

  /** Unless the user picked another pool by number, the selection is the first listed
      Solana pool of greatest liquidity. */
  lemma BestPairIsTopLiquidity(pairs: seq<Pair>, interactive: bool, choice: Choice)
    requires SolanaPairs(pairs) != []
    requires !(interactive && choice.Entered? && choice.n >= 2)
    ensures exists i ::
      FirstMaximal(SolanaPairs(pairs), i)
      && GetBestPair(Reply(Some(pairs)), interactive, choice) == Some(SelectionOf(SolanaPairs(pairs)[i]))
  {
    var sol := SolanaPairs(pairs);
    TopIsFirstMaximal(sol);
    var ranked := RankByLiquidity(sol);
    assert ChosenIndex(|ranked|, interactive, choice) == 0;
    var i :| FirstMaximal(sol, i) && sol[i] == ranked[0];
    assert GetBestPair(Reply(Some(pairs)), interactive, choice) == Some(SelectionOf(sol[i]));
  }

  /** In interactive mode with several Solana pools, typing n in 1..count picks the n-th
      pool of the ranking. */
  lemma ManualChoicePicksRank(pairs: seq<Pair>, n: int)
    requires |SolanaPairs(pairs)| > 1
    requires 1 <= n <= |SolanaPairs(pairs)|
    ensures GetBestPair(Reply(Some(pairs)), true, Entered(n))
      == Some(SelectionOf(RankByLiquidity(SolanaPairs(pairs))[n - 1]))
  {
    var sol := SolanaPairs(pairs);
    var ranked := RankByLiquidity(sol);
  }
}
