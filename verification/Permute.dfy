/** The grammar for "these parsers, each once, in any order", built by memoised recursion over bit masks. */
module Permute {
  const MAX_PERMUTE := 6

  // The parser combinators in use; Leaf(i) is the i-th parser of the list that is to be permuted.
  datatype Parser =
    | Eps
    | Leaf(index: nat)
    | Then(first: Parser, second: Parser)
    | Sequence(parts: seq<Parser>)
    | Choice(alternatives: seq<Parser>)
    | Rule(mask: nat, body: Parser)

  // ---------- masks ----------

  predicate HasBit(m: nat, i: nat) {
    if i == 0 then m % 2 == 1 else HasBit(m / 2, i - 1)
  }

  function Clear(m: nat, i: nat): nat {
    if i == 0 then m - m % 2 else 2 * Clear(m / 2, i - 1) + m % 2
  }

  function Full(n: nat): nat {
    if n == 0 then 0 else 2 * Full(n - 1) + 1
  }

  lemma ClearHalf(m: nat, i: nat)
    ensures Clear(m, i) / 2 == if i == 0 then m / 2 else Clear(m / 2, i - 1)
    ensures Clear(m, i) % 2 == if i == 0 then 0 else m % 2
  {
  }

  lemma {:induction false} ClearRemovesOne(m: nat, i: nat, j: nat)
    ensures HasBit(Clear(m, i), j) <==> j != i && HasBit(m, j)
  {
    ClearHalf(m, i);
    if i > 0 && j > 0 {
      ClearRemovesOne(m / 2, i - 1, j - 1);
    }
  }

  lemma {:induction false} ClearDecreases(m: nat, i: nat)
    requires HasBit(m, i)
    ensures Clear(m, i) < m
  {
    if i > 0 {
      ClearDecreases(m / 2, i - 1);
    }
  }

  lemma {:induction false} FullHasAll(n: nat, i: nat)
    ensures HasBit(Full(n), i) <==> i < n
  {
    if n == 0 {
      ZeroHasNone(i);
    } else if i > 0 {
      FullHasAll(n - 1, i - 1);
      assert Full(n) / 2 == Full(n - 1);
    }
  }

  lemma {:induction false} ZeroHasNone(i: nat)
    ensures !HasBit(0, i)
  {
    if i > 0 {
      ZeroHasNone(i - 1);
    }
  }

  // The lowest bit.
  lemma {:induction false} PositiveHasSome(m: nat) returns (i: nat)
    requires m > 0
    ensures HasBit(m, i) && forall j: nat :: HasBit(m, j) ==> i <= j
  {
    if m % 2 == 1 {
      i := 0;
    } else {
      var j := PositiveHasSome(m / 2);
      i := j + 1;
      forall k: nat | HasBit(m, k) ensures i <= k {
        assert k > 0 && HasBit(m / 2, k - 1);
      }
    }
  }

  // ---------- the grammar without the memo table ----------

  function Grammar(m: nat, n: nat): Parser
    decreases m, n + 1
  {
    if m == 0 then Eps else Rule(m, Choice(Alternatives(m, n, n)))
  }

  // The alternatives for the first k parsers: one for each bit that is still set.
  function Alternatives(m: nat, k: nat, n: nat): seq<Parser>
    decreases m, k
  {
    if k == 0 then []
    else if HasBit(m, k - 1) then
      ClearDecreases(m, k - 1);
      Alternatives(m, k - 1, n) + [Then(Leaf(k - 1), Grammar(Clear(m, k - 1), n))]
    else Alternatives(m, k - 1, n)
  }

  function Leaves(n: nat): seq<Parser> {
    seq(n, i requires 0 <= i => Leaf(i))
  }

  function Permutation(n: nat): Parser {
    if n == 0 then Eps
    else if n == 1 || n > MAX_PERMUTE then Sequence(Leaves(n))
    else Grammar(Full(n), n)
  }

  // ---------- the builder with its memo table ----------

  class Builder {
    const count: nat              // how many parsers are permuted
    var rules: map<nat, Parser>   // the rules built so far, by mask
    var registered: seq<nat>      // the masks in the order their rules were registered

    constructor (count: nat)
      ensures this.count == count && rules == map[] && registered == []
    {
      this.count := count;
      rules := map[];
      registered := [];
    }

    // The table always holds what the plain recursion would build, and every rule was registered once.
    ghost predicate Valid()
      reads this
    {
      && (forall m :: m in rules ==> rules[m] == Grammar(m, count))
      && (forall m :: m in registered <==> m in rules)
      && (forall i, j :: 0 <= i < j < |registered| ==> registered[i] != registered[j])
    }

    method RemainingOf(remaining: nat) returns (p: Parser)
      requires Valid()
      modifies this
      ensures Valid()
      ensures p == Grammar(remaining, count)
      ensures remaining > 0 ==> remaining in rules
      ensures forall m :: m in old(rules) ==> m in rules
      ensures forall m :: m in rules ==> m in old(rules) || m <= remaining
      ensures old(registered) <= registered
      decreases remaining
    {
      hide HasBit, Clear;
      if remaining == 0 {
        return Eps;
      }
      if remaining in rules {
        return rules[remaining];
      }
      var alternatives := [];
      var i := 0;
      while i < count
        invariant i <= count && Valid()
        invariant alternatives == Alternatives(remaining, i, count)
        invariant remaining !in rules
        invariant forall m :: m in old(rules) ==> m in rules
        invariant forall m :: m in rules ==> m in old(rules) || m < remaining
        invariant old(registered) <= registered
      {
        if HasBit(remaining, i) {
          ClearDecreases(remaining, i);
          var rest := RemainingOf(Clear(remaining, i));
          alternatives := alternatives + [Then(Leaf(i), rest)];
        }
        i := i + 1;
      }
      p := Rule(remaining, Choice(alternatives));
      rules := rules[remaining := p];
      registered := registered + [remaining];
    }
  }

  /** The memoised construction builds the grammar of the plain recursion. */
  method BuildPermutation(n: nat) returns (p: Parser)
    ensures p == Permutation(n)
  {
    if n == 0 {
      return Eps;
    }
    if n == 1 || n > MAX_PERMUTE {
      return Sequence(Leaves(n));
    }
    var b := new Builder(n);
    p := b.RemainingOf(Full(n));
  }

  // ---------- the language of the grammar ----------

  // The sequences of parsers a grammar derives.
  ghost predicate Derives(p: Parser, w: seq<nat>)
    decreases p, 0
  {
    match p
    case Eps => w == []
    case Leaf(i) => w == [i]
    case Then(a, b) => exists k :: 0 <= k <= |w| && Derives(a, w[..k]) && Derives(b, w[k..])
    case Sequence(ps) => DerivesAll(ps, w)
    case Choice(ps) => exists i :: 0 <= i < |ps| && Derives(ps[i], w)
    case Rule(_, body) => Derives(body, w)
  }

  ghost predicate DerivesAll(ps: seq<Parser>, w: seq<nat>)
    decreases ps, 1
  {
    if ps == [] then w == []
    else exists k :: 0 <= k <= |w| && Derives(ps[0], w[..k]) && DerivesAll(ps[1..], w[k..])
  }

  ghost predicate Distinct(w: seq<nat>) {
    forall i, j :: 0 <= i < j < |w| ==> w[i] != w[j]
  }

  // Each parser of the mask, once.
  ghost predicate Uses(w: seq<nat>, m: nat) {
    Distinct(w) && forall i: nat :: i in w <==> HasBit(m, i)
  }

  ghost predicate Within(m: nat, n: nat) {
    forall i: nat :: HasBit(m, i) ==> i < n
  }

  lemma {:induction false} AlternativeFor(m: nat, k: nat, n: nat, i: nat)
    requires i < k && HasBit(m, i)
    ensures exists j :: 0 <= j < |Alternatives(m, k, n)| &&
              Alternatives(m, k, n)[j] == Then(Leaf(i), Grammar(Clear(m, i), n))
    decreases k
  {
    var alts := Alternatives(m, k, n);
    if i == k - 1 {
      assert alts[|alts| - 1] == Then(Leaf(i), Grammar(Clear(m, i), n));
    } else {
      AlternativeFor(m, k - 1, n, i);
      var before := Alternatives(m, k - 1, n);
      var j :| 0 <= j < |before| && before[j] == Then(Leaf(i), Grammar(Clear(m, i), n));
      assert alts[j] == before[j];
    }
  }

  lemma {:induction false} AlternativeOf(m: nat, k: nat, n: nat, j: nat) returns (i: nat)
    requires j < |Alternatives(m, k, n)|
    ensures i < k && HasBit(m, i) && Alternatives(m, k, n)[j] == Then(Leaf(i), Grammar(Clear(m, i), n))
    decreases k
  {
    var before := Alternatives(m, k - 1, n);
    if j < |before| {
      i := AlternativeOf(m, k - 1, n, j);
    } else {
      i := k - 1;
    }
  }

  // A sequence uses a mask when its head is in the mask and its tail uses the others.
  lemma UsesStep(w: seq<nat>, m: nat, i: nat)
    requires w != [] && w[0] == i && HasBit(m, i)
    ensures Uses(w, m) <==> Uses(w[1..], Clear(m, i))
  {
    forall j: nat ensures HasBit(Clear(m, i), j) <==> j != i && HasBit(m, j) {
      ClearRemovesOne(m, i, j);
    }
    assert w == [i] + w[1..];
    if Uses(w, m) {
      forall j: nat ensures j in w[1..] <==> HasBit(Clear(m, i), j) {
        assert j in w <==> j == i || j in w[1..];
      }
    }
    if Uses(w[1..], Clear(m, i)) {
      assert i !in w[1..];
      forall a, b | 0 <= a < b < |w| ensures w[a] != w[b] {
        assert w[b] == w[1..][b - 1];
        if a > 0 {
          assert w[a] == w[1..][a - 1];
        }
      }
    }
  }

  lemma {:induction false} GrammarDerives(m: nat, n: nat, w: seq<nat>)
    requires Within(m, n)
    ensures Derives(Grammar(m, n), w) <==> Uses(w, m)
    decreases m
  {
    if m == 0 {
      NoneLeft(w);
    } else {
      if Derives(Grammar(m, n), w) {
        GrammarSound(m, n, w);
      }
      GrammarComplete(m, n, w);
    }
  }

  lemma NoneLeft(w: seq<nat>)
    ensures Uses(w, 0) <==> w == []
  {
    forall i: nat ensures !HasBit(0, i) {
      ZeroHasNone(i);
    }
    if w != [] {
      assert w[0] in w;
    }
  }

  lemma ClearWithin(m: nat, n: nat, i: nat)
    requires Within(m, n)
    ensures Within(Clear(m, i), n)
  {
    forall j: nat | HasBit(Clear(m, i), j) ensures j < n {
      ClearRemovesOne(m, i, j);
    }
  }

  lemma {:induction false} GrammarSound(m: nat, n: nat, w: seq<nat>)
    requires m > 0 && Within(m, n) && Derives(Grammar(m, n), w)
    ensures Uses(w, m)
    decreases m, 0
  {
    hide Uses, HasBit, Clear;
    var alts := Alternatives(m, n, n);
    assert Derives(Choice(alts), w);
    var j :| 0 <= j < |alts| && Derives(alts[j], w);
    var i := AlternativeOf(m, n, n, j);
    var k :| 0 <= k <= |w| && Derives(Leaf(i), w[..k]) && Derives(Grammar(Clear(m, i), n), w[k..]);
    assert w[..k] == [i];
    assert k == 1 && w[0] == i;
    ClearDecreases(m, i);
    ClearWithin(m, n, i);
    GrammarDerives(Clear(m, i), n, w[1..]);
    UsesStep(w, m, i);
  }

  lemma {:induction false} GrammarComplete(m: nat, n: nat, w: seq<nat>)
    requires m > 0 && Within(m, n)
    ensures Uses(w, m) ==> Derives(Grammar(m, n), w)
    decreases m, 0
  {
    if Uses(w, m) {
      var b := PositiveHasSome(m);
      assert b in w;
      var i := w[0];
      assert i in w;
      hide Uses, HasBit, Clear;
      ClearDecreases(m, i);
      ClearWithin(m, n, i);
      UsesStep(w, m, i);
      GrammarDerives(Clear(m, i), n, w[1..]);
      AlternativeFor(m, n, n, i);
      var alts := Alternatives(m, n, n);
      var j :| 0 <= j < |alts| && alts[j] == Then(Leaf(i), Grammar(Clear(m, i), n));
      assert w[..1] == [i] && Derives(Leaf(i), w[..1]);
      assert Derives(alts[j], w);
      assert Derives(Choice(alts), w);
    }
  }

  lemma {:induction false} LeavesInOrder(n: nat, i: nat, w: seq<nat>)
    requires i <= n
    ensures DerivesAll(Leaves(n)[i..], w) <==> w == seq(n - i, k requires 0 <= k => i + k)
    decreases n - i
  {
    var ps := Leaves(n)[i..];
    if i < n {
      assert ps[0] == Leaf(i) && ps[1..] == Leaves(n)[i + 1..];
      var rest := seq(n - i - 1, k requires 0 <= k => i + 1 + k);
      assert seq(n - i, k requires 0 <= k => i + k) == [i] + rest;
      if DerivesAll(ps, w) {
        var k :| 0 <= k <= |w| && Derives(ps[0], w[..k]) && DerivesAll(ps[1..], w[k..]);
        assert w[..k] == [i];
        assert k == 1;
        LeavesInOrder(n, i + 1, w[1..]);
        assert w == [i] + w[1..];
      }
      if w == [i] + rest {
        assert w[1..] == rest && w[..1] == [i];
        LeavesInOrder(n, i + 1, w[1..]);
        assert Derives(ps[0], w[..1]) && DerivesAll(ps[1..], w[1..]);
      }
    }
  }

  ghost predicate IsOrder(w: seq<nat>, n: nat) {
    Distinct(w) && forall i: nat :: i in w <==> i < n
  }

  /** For two to six parsers the grammar accepts exactly the sequences that use each parser once. */
  lemma PermutationDerives(n: nat, w: seq<nat>)
    requires 2 <= n <= MAX_PERMUTE
    ensures Derives(Permutation(n), w) <==> IsOrder(w, n)
  {
    forall i: nat ensures HasBit(Full(n), i) <==> i < n {
      FullHasAll(n, i);
    }
    hide HasBit, Full;
    GrammarDerives(Full(n), n, w);
  }

  /** Otherwise it accepts the given order only. */
  lemma OnlyInOrder(n: nat, w: seq<nat>)
    requires n < 2 || n > MAX_PERMUTE
    ensures Derives(Permutation(n), w) <==> w == seq(n, k requires 0 <= k => k)
  {
    if n > 0 {
      LeavesInOrder(n, 0, w);
      assert Leaves(n)[0..] == Leaves(n);
      assert seq(n, k requires 0 <= k => 0 + k) == seq(n, k requires 0 <= k => k);
    }
  }

  // ---------- parsing with ordered choice ----------

  // What a parser makes of a text: it matches at the start and leaves a rest, it would match if the text went on, or it
  // does neither.
  datatype Outcome = Match(rest: string) | NeedMore | Fail

  type LeafParsers = (nat, string) -> Outcome

  function Parse(p: Parser, s: string, leaf: LeafParsers): Outcome
    decreases p, 0
  {
    match p
    case Eps => Match(s)
    case Leaf(i) => leaf(i, s)
    case Then(a, b) =>
      var r := Parse(a, s, leaf);
      if r.Match? then Parse(b, r.rest, leaf) else r
    case Sequence(ps) => ParseAll(ps, s, leaf)
    case Choice(ps) => ParseFirst(ps, s, leaf)
    case Rule(_, body) => Parse(body, s, leaf)
  }

  function ParseAll(ps: seq<Parser>, s: string, leaf: LeafParsers): Outcome
    decreases ps, 1
  {
    if ps == [] then Match(s)
    else
      var r := Parse(ps[0], s, leaf);
      if r.Match? then ParseAll(ps[1..], r.rest, leaf) else r
  }

  // The first alternative that does not fail decides, also when it needs more input.
  function ParseFirst(ps: seq<Parser>, s: string, leaf: LeafParsers): Outcome
    decreases ps, 1
  {
    if ps == [] then Fail
    else
      var r := Parse(ps[0], s, leaf);
      if r.Fail? then ParseFirst(ps[1..], s, leaf) else r
  }

  // The parsers run one behind the other in a given order.
  function InTurn(w: seq<nat>, s: string, leaf: LeafParsers): Outcome {
    if w == [] then Match(s)
    else
      var r := leaf(w[0], s);
      if r.Match? then InTurn(w[1..], r.rest, leaf) else r
  }

  // Dictionary order; only used between sequences of one length.
  predicate NotAfter(v: seq<nat>, w: seq<nat>) {
    v == [] || (w != [] && (v[0] < w[0] || (v[0] == w[0] && NotAfter(v[1..], w[1..]))))
  }

  // An order that does not fail, and no order that does not fail comes before it.
  ghost predicate IsFirst(w: seq<nat>, m: nat, s: string, leaf: LeafParsers) {
    && Uses(w, m)
    && !InTurn(w, s, leaf).Fail?
    && forall v :: Uses(v, m) && !InTurn(v, s, leaf).Fail? ==> NotAfter(w, v)
  }

  // The alternative that begins with parser i.
  function TryBit(m: nat, n: nat, i: nat, s: string, leaf: LeafParsers): Outcome {
    var r := leaf(i, s);
    if r.Match? then Parse(Grammar(Clear(m, i), n), r.rest, leaf) else r
  }

  ghost predicate FirstBit(m: nat, k: nat, n: nat, s: string, leaf: LeafParsers, i: nat) {
    && i < k && HasBit(m, i)
    && !TryBit(m, n, i, s, leaf).Fail?
    && forall j: nat :: j < i && HasBit(m, j) ==> TryBit(m, n, j, s, leaf).Fail?
  }

  lemma {:induction false} ParseFirstConcat(ps: seq<Parser>, qs: seq<Parser>, s: string, leaf: LeafParsers)
    ensures ParseFirst(ps + qs, s, leaf) ==
            if ParseFirst(ps, s, leaf).Fail? then ParseFirst(qs, s, leaf) else ParseFirst(ps, s, leaf)
  {
    if ps == [] {
      assert ps + qs == qs;
    } else {
      ParseFirstConcat(ps[1..], qs, s, leaf);
      assert (ps + qs)[1..] == ps[1..] + qs;
    }
  }

  // Ordered choice over the alternatives takes the lowest bit that leads anywhere.
  lemma {:induction false} ChoiceTakesFirstBit(m: nat, k: nat, n: nat, s: string, leaf: LeafParsers)
    ensures ParseFirst(Alternatives(m, k, n), s, leaf).Fail? ==>
              forall i: nat :: i < k && HasBit(m, i) ==> TryBit(m, n, i, s, leaf).Fail?
    ensures !ParseFirst(Alternatives(m, k, n), s, leaf).Fail? ==>
              exists i: nat :: FirstBit(m, k, n, s, leaf, i) &&
                               TryBit(m, n, i, s, leaf) == ParseFirst(Alternatives(m, k, n), s, leaf)
    decreases k
  {
    if k > 0 {
      hide HasBit, Clear, Grammar;
      ChoiceTakesFirstBit(m, k - 1, n, s, leaf);
      var before := Alternatives(m, k - 1, n);
      if !ParseFirst(before, s, leaf).Fail? {
        var i: nat :| FirstBit(m, k - 1, n, s, leaf, i) && TryBit(m, n, i, s, leaf) == ParseFirst(before, s, leaf);
        assert FirstBit(m, k, n, s, leaf, i);
      }
      if HasBit(m, k - 1) {
        var alt := Then(Leaf(k - 1), Grammar(Clear(m, k - 1), n));
        ParseFirstConcat(before, [alt], s, leaf);
        assert Parse(alt, s, leaf) == TryBit(m, n, k - 1, s, leaf);
        assert ParseFirst([alt], s, leaf) == Parse(alt, s, leaf);
        if ParseFirst(before, s, leaf).Fail? && !Parse(alt, s, leaf).Fail? {
          assert FirstBit(m, k, n, s, leaf, k - 1);
        }
      }
    }
  }

  // The parsers of a mask from the lowest to the highest come before every other order.
  lemma {:induction false} LowestOrder(m: nat) returns (w: seq<nat>)
    ensures Uses(w, m) && forall v :: Uses(v, m) ==> NotAfter(w, v)
  {
    if m == 0 {
      w := [];
      NoneLeft(w);
    } else {
      var i := PositiveHasSome(m);
      ClearDecreases(m, i);
      var tail := LowestOrder(Clear(m, i));
      w := [i] + tail;
      assert w[1..] == tail;
      UsesStep(w, m, i);
      forall v | Uses(v, m) ensures NotAfter(w, v) {
        OrderStartsWithBit(v, m);
        if v[0] == i {
          UsesStep(v, m, i);
        }
      }
    }
  }

  /** Parsing with the grammar is a search for the earliest order of the parsers that does not fail. */
  lemma {:induction false} GrammarParses(m: nat, n: nat, s: string, leaf: LeafParsers) returns (w: seq<nat>)
    requires Within(m, n)
    ensures !Parse(Grammar(m, n), s, leaf).Fail? ==>
              IsFirst(w, m, s, leaf) && InTurn(w, s, leaf) == Parse(Grammar(m, n), s, leaf)
    ensures Parse(Grammar(m, n), s, leaf).Fail? ==> forall v :: Uses(v, m) ==> InTurn(v, s, leaf).Fail?
    decreases m, 2
  {
    w := [];
    if m == 0 {
      forall v | Uses(v, 0) ensures v == [] {
        NoneLeft(v);
      }
      NoneLeft([]);
    } else {
      hide HasBit, Clear, Uses;
      var alts := Alternatives(m, n, n);
      assert Parse(Grammar(m, n), s, leaf) == ParseFirst(alts, s, leaf);
      ChoiceTakesFirstBit(m, n, n, s, leaf);
      if ParseFirst(alts, s, leaf).Fail? {
        forall v | Uses(v, m) ensures InTurn(v, s, leaf).Fail? {
          OrderStartsWithBit(v, m);
          HeadFails(m, n, s, leaf, v);
        }
      } else {
        var i: nat :| FirstBit(m, n, n, s, leaf, i) && TryBit(m, n, i, s, leaf) == ParseFirst(alts, s, leaf);
        w := FirstOrder(m, n, s, leaf, i);
      }
    }
  }

  lemma OrderStartsWithBit(v: seq<nat>, m: nat)
    requires m > 0 && Uses(v, m)
    ensures v != [] && HasBit(m, v[0])
  {
    var b := PositiveHasSome(m);
    assert b in v && v[0] in v;
  }

  // If the alternative for its first parser fails, an order fails.
  lemma {:induction false} HeadFails(m: nat, n: nat, s: string, leaf: LeafParsers, v: seq<nat>)
    requires Within(m, n) && Uses(v, m) && v != [] && HasBit(m, v[0])
    requires TryBit(m, n, v[0], s, leaf).Fail?
    ensures InTurn(v, s, leaf).Fail?
    decreases m, 0
  {
    hide HasBit, Clear, Uses;
    if leaf(v[0], s).Match? {
      ClearDecreases(m, v[0]);
      ClearWithin(m, n, v[0]);
      UsesStep(v, m, v[0]);
      var _ := GrammarParses(Clear(m, v[0]), n, leaf(v[0], s).rest, leaf);
    }
  }

  lemma {:induction false} FirstOrder(m: nat, n: nat, s: string, leaf: LeafParsers, i: nat) returns (w: seq<nat>)
    requires m > 0 && Within(m, n) && FirstBit(m, n, n, s, leaf, i)
    ensures IsFirst(w, m, s, leaf) && InTurn(w, s, leaf) == TryBit(m, n, i, s, leaf)
    decreases m, 1
  {
    hide HasBit, Clear, Uses;
    ClearDecreases(m, i);
    ClearWithin(m, n, i);
    var tail;
    if leaf(i, s).Match? {
      tail := GrammarParses(Clear(m, i), n, leaf(i, s).rest, leaf);
    } else {
      tail := LowestOrder(Clear(m, i));
    }
    w := [i] + tail;
    assert w[1..] == tail;
    UsesStep(w, m, i);
    forall v | Uses(v, m) && !InTurn(v, s, leaf).Fail? ensures NotAfter(w, v) {
      OrderStartsWithBit(v, m);
      if v[0] < i {
        HeadFails(m, n, s, leaf, v);
        assert false;
      } else if v[0] == i {
        UsesStep(v, m, i);
      }
    }
  }

  /** So a text is not refused when some order of the parsers does not refuse it, and then it is parsed as the earliest
      such order parses it, up to a rest or to the end of the text. */
  lemma PermutationParses(n: nat, s: string, leaf: LeafParsers)
    requires 2 <= n <= MAX_PERMUTE
    ensures Parse(Permutation(n), s, leaf).Fail? <==> forall v :: IsOrder(v, n) ==> InTurn(v, s, leaf).Fail?
    ensures !Parse(Permutation(n), s, leaf).Fail? ==>
              exists w :: IsOrder(w, n) && InTurn(w, s, leaf) == Parse(Permutation(n), s, leaf) &&
                          forall v :: IsOrder(v, n) && !InTurn(v, s, leaf).Fail? ==> NotAfter(w, v)
  {
    forall i: nat ensures HasBit(Full(n), i) <==> i < n {
      FullHasAll(n, i);
    }
    forall v ensures Uses(v, Full(n)) <==> IsOrder(v, n) {
    }
    hide HasBit, Full;
    var w := GrammarParses(Full(n), n, s, leaf);
  }
}
