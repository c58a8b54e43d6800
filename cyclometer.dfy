/** The cycle analyser of CycloMeter.py: for every letter, the four-press
    indicator procedure from the ground setting gives a letter-to-letter
    mapping, which is then split into closed cycles. */
module Cyclometer {
  import opened Enigma

  /** The rotor-order check of the analysis screen: three different rotors. */
  function DistinctRotors(order: RotorOrder): (ok: bool)
    ensures ok <==> order.left != order.mid && order.left != order.right && order.mid != order.right
  {
    |{order.left, order.mid, order.right}| == 3
  }

  /** Press the letter, press A twice, press the letter again, always from
      the ground setting; the result of the fourth press. */
  function IndicatorMapping(order: RotorOrder, start: Positions, id: ReflectorId, x: Letter): Letter {
    var p1 := EncryptLetter(x, order, start, id).1;
    var p2 := EncryptLetter(0, order, p1, id).1;
    var p3 := EncryptLetter(0, order, p2, id).1;
    EncryptLetter(x, order, p3, id).0
  }

  /** The positions of the fourth press, the same for every letter. */
  function FourthPositions(order: RotorOrder, start: Positions): Positions {
    Step(order, Step(order, Step(order, Step(order, start))))
  }

  /** The indicator mapping is the machine's substitution at one fixed set of
      positions. */
  lemma IndicatorIsSubstitution(order: RotorOrder, start: Positions, id: ReflectorId, x: Letter)
    ensures IndicatorMapping(order, start, id, x) == Substitute(Assemble(order, id), FourthPositions(order, start), x)
  {
  }

  /** Hence it is an involution without fixed points. */
  lemma IndicatorIsInvolution(order: RotorOrder, start: Positions, id: ReflectorId, x: Letter)
    ensures IndicatorMapping(order, start, id, IndicatorMapping(order, start, id, x)) == x
    ensures IndicatorMapping(order, start, id, x) != x
  {
    SubstituteIsReciprocal(Assemble(order, id), FourthPositions(order, start), x);
  }

  /** A table of the alphabet that is its own inverse and moves every letter. */
  predicate IsSwapTable(t: seq<Letter>) {
    |t| == 26 && forall x: Letter :: t[t[x]] == x && t[x] != x
  }

  /** t lists the indicator mapping, one entry per letter. */
  predicate IsIndicatorTable(t: seq<Letter>, order: RotorOrder, start: Positions, id: ReflectorId) {
    |t| == 26 &&
    forall x: Letter {:trigger IndicatorMapping(order, start, id, x)} :: t[x] == IndicatorMapping(order, start, id, x)
  }

  /** The indicator mapping's table is a swap table. */
  lemma IndicatorTableOf(order: RotorOrder, start: Positions, id: ReflectorId) returns (t: seq<Letter>)
    ensures IsIndicatorTable(t, order, start, id)
    ensures IsSwapTable(t)
  {
    t := seq(26, x requires 0 <= x < 26 => IndicatorMapping(order, start, id, x));
    forall x: Letter
      ensures t[t[x]] == x && t[x] != x
    {
      IndicatorIsInvolution(order, start, id, x);
    }
  }

  /** The four presses of one round of the analyser (CycloMeter.py:122-135):
      the letter, two dummy letters A, the letter again, the first from the
      ground setting and each from the positions the previous one left. */
  method IndicatorPresses(order: RotorOrder, start: Positions, id: ReflectorId, x: Letter, ghost t: seq<Letter>)
    returns (output: Letter)
    requires IsIndicatorTable(t, order, start, id)
    ensures output == t[x]
  {
    var (_, p1) := EncryptLetter(x, order, start, id);
    var (_, p2) := EncryptLetter(0, order, p1, id);
    var (_, p3) := EncryptLetter(0, order, p2, id);
    var (letter, _) := EncryptLetter(x, order, p3, id);
    output := letter;
    assert output == IndicatorMapping(order, start, id, x);
  }

  /** The letters of a cycle without the closing repeat. */
  function Body(cycle: seq<Letter>): seq<Letter>
    requires |cycle| > 0
  {
    cycle[..|cycle| - 1]
  }

  /** A cycle [S, T, S] of table t with S < T. */
  predicate IsPairCycle(cycle: seq<Letter>, t: seq<Letter>) {
    |t| == 26 && |cycle| == 3 && cycle[2] == cycle[0] && cycle[0] < cycle[1] && cycle[1] == t[cycle[0]]
  }

  /** Letter x occurs in the body of one of the cycles. */
  predicate InSomeBody(cycles: seq<seq<Letter>>, x: Letter) {
    exists j :: 0 <= j < |cycles| && |cycles[j]| > 0 && x in Body(cycles[j])
  }

  /** The letters occurring in the bodies of the cycles, gathered from the
      front of the list. */
  function CycleLetters(cycles: seq<seq<Letter>>): set<Letter> {
    if cycles == [] then {}
    else
      var last := cycles[|cycles| - 1];
      CycleLetters(cycles[..|cycles| - 1]) + (if last == [] then {} else set x | x in Body(last))
  }

  lemma {:induction false} CycleLettersInSomeBody(cycles: seq<seq<Letter>>, x: Letter)
    ensures x in CycleLetters(cycles) <==> InSomeBody(cycles, x)
  {
    if cycles != [] {
      var front := cycles[..|cycles| - 1];
      CycleLettersInSomeBody(front, x);
      if InSomeBody(cycles, x) {
        var j :| 0 <= j < |cycles| && |cycles[j]| > 0 && x in Body(cycles[j]);
        if j < |front| {
          assert front[j] == cycles[j];
        }
      }
      if InSomeBody(front, x) {
        var j :| 0 <= j < |front| && |front[j]| > 0 && x in Body(front[j]);
        assert front[j] == cycles[j];
      }
    }
  }

  /** The report's cycle lengths, each without the closing repeat, summed. */
  function LengthSum(cycles: seq<seq<Letter>>): int {
    if cycles == [] then 0 else LengthSum(cycles[..|cycles| - 1]) + |cycles[|cycles| - 1]| - 1
  }

  lemma {:induction false} LengthSumOfPairs(cycles: seq<seq<Letter>>)
    requires forall j :: 0 <= j < |cycles| ==> |cycles[j]| == 3
    ensures LengthSum(cycles) == 2 * |cycles|
  {
    if cycles != [] {
      LengthSumOfPairs(cycles[..|cycles| - 1]);
    }
  }

  /** The letters below n. */
  function LettersBelow(n: nat): (r: set<Letter>)
    requires n <= 26
    ensures forall x: Letter :: x in r <==> x < n
    ensures |r| == n
  {
    if n == 0 then {} else LettersBelow(n - 1) + {n - 1}
  }

  /** The cycles are listed by increasing first letter. */
  predicate FirstLettersIncrease(cycles: seq<seq<Letter>>) {
    forall j, k :: 0 <= j < k < |cycles| && |cycles[j]| > 0 && |cycles[k]| > 0 ==> cycles[j][0] < cycles[k][0]
  }

  /** Two pair cycles of a swap table, listed by increasing first letter,
      share no letter. */
  lemma PairCyclesDisjoint(cycles: seq<seq<Letter>>, t: seq<Letter>, j: int, k: int, a: int, b: int)
    requires IsSwapTable(t)
    requires forall i :: 0 <= i < |cycles| ==> IsPairCycle(cycles[i], t)
    requires FirstLettersIncrease(cycles)
    requires 0 <= j < |cycles| && 0 <= k < |cycles| && 0 <= a < 2 && 0 <= b < 2
    requires a < |cycles[j]| && b < |cycles[k]| && cycles[j][a] == cycles[k][b]
    ensures j == k && a == b
  {
    var cj, ck := cycles[j], cycles[k];
    assert IsPairCycle(cj, t) && IsPairCycle(ck, t);
    var s, u := cj[0], ck[0];
    assert t[t[s]] == s && t[t[u]] == u;
    assert cj[a] == if a == 0 then s else t[s];
    assert ck[b] == if b == 0 then u else t[u];
    assert s == u ==> j == k;
  }

  /** No letter appears twice among the bodies of the pair cycles. */
  lemma PairCyclesPartition(cycles: seq<seq<Letter>>, t: seq<Letter>)
    requires IsSwapTable(t)
    requires forall i :: 0 <= i < |cycles| ==> IsPairCycle(cycles[i], t)
    requires FirstLettersIncrease(cycles)
    ensures forall j, k, a, b ::
      0 <= j < |cycles| && 0 <= k < |cycles| && 0 <= a < |cycles[j]| - 1 && 0 <= b < |cycles[k]| - 1 &&
      cycles[j][a] == cycles[k][b]
      ==> j == k && a == b
  {
    forall j, k, a, b |
      0 <= j < |cycles| && 0 <= k < |cycles| && 0 <= a < |cycles[j]| - 1 && 0 <= b < |cycles[k]| - 1 &&
      cycles[j][a] == cycles[k][b]
      ensures j == k && a == b
    {
      PairCyclesDisjoint(cycles, t, j, k, a, b);
    }
  }

  /** A set holding every letter has 26 elements. */
  lemma WholeAlphabet(seen: set<Letter>)
    requires forall x: Letter :: x in seen
    ensures |seen| == 26
  {
    assert seen == LettersBelow(26);
  }

  /** What the analyser's walk has established once the letters below i have
      been visited: the cycles found so far are pair cycles of t listed by
      first letter, and seen holds exactly their letters, which include every
      letter below i. */
  ghost predicate CyclesSoFar(cycles: seq<seq<Letter>>, seen: set<Letter>, t: seq<Letter>, i: int) {
    |t| == 26 && 0 <= i <= 26 &&
    (forall j :: 0 <= j < |cycles| ==> IsPairCycle(cycles[j], t)) &&
    FirstLettersIncrease(cycles) &&
    (forall j :: 0 <= j < |cycles| && |cycles[j]| > 0 ==> cycles[j][0] < i) &&
    seen == CycleLetters(cycles) &&
    (forall x: Letter :: x < i ==> x in seen) &&
    (forall x :: x in seen ==> t[x] in seen) &&
    |seen| == 2 * |cycles|
  }

  /** Nothing is known at the start of the walk. */
  lemma CyclesAtStart(t: seq<Letter>)
    requires |t| == 26
    ensures CyclesSoFar([], {}, t, 0)
  {
  }

  /** A letter already seen starts no cycle. */
  lemma SkipSeenLetter(cycles: seq<seq<Letter>>, seen: set<Letter>, t: seq<Letter>, i: int)
    requires CyclesSoFar(cycles, seen, t, i) && i < 26 && i in seen
    ensures CyclesSoFar(cycles, seen, t, i + 1)
  {
  }

  /** The partner of the first letter not yet seen comes later and has not
      been seen either. */
  lemma PartnerUnseen(seen: set<Letter>, t: seq<Letter>, i: Letter)
    requires |t| == 26 && t[t[i]] == i && t[i] != i
    requires forall x :: x in seen ==> t[x] in seen
    requires forall x: Letter :: x < i ==> x in seen
    requires i !in seen
    ensures t[i] !in seen && i < t[i]
  {
  }

  /** A set of letters closed under t stays closed when a letter and its
      partner join it. */
  lemma ClosedUnderPartner(seen: set<Letter>, t: seq<Letter>, i: Letter)
    requires |t| == 26 && t[t[i]] == i
    requires forall x :: x in seen ==> t[x] in seen
    ensures forall x :: x in seen + {i, t[i]} ==> t[x] in seen + {i, t[i]}
  {
  }

  /** Appending the cycle [a, b, a] adds exactly a and b to the letters of
      the cycles. */
  lemma AppendPairLetters(cycles: seq<seq<Letter>>, a: Letter, b: Letter)
    ensures CycleLetters(cycles + [[a, b, a]]) == CycleLetters(cycles) + {a, b}
  {
    var cycles' := cycles + [[a, b, a]];
    assert cycles'[..|cycles'| - 1] == cycles;
    assert Body([a, b, a]) == [a, b];
  }

  /** The cycle [i, t[i], i], with i above every earlier first letter and
      below its partner, extends the list of pair cycles in order. */
  lemma AppendPairCycle(cycles: seq<seq<Letter>>, t: seq<Letter>, i: Letter)
    requires |t| == 26 && i < t[i]
    requires forall j :: 0 <= j < |cycles| ==> IsPairCycle(cycles[j], t)
    requires FirstLettersIncrease(cycles)
    requires forall j :: 0 <= j < |cycles| && |cycles[j]| > 0 ==> cycles[j][0] < i
    ensures forall j :: 0 <= j < |cycles| + 1 ==> IsPairCycle((cycles + [[i, t[i], i]])[j], t)
    ensures FirstLettersIncrease(cycles + [[i, t[i], i]])
    ensures forall j :: 0 <= j < |cycles| + 1 && |(cycles + [[i, t[i], i]])[j]| > 0 ==>
      (cycles + [[i, t[i], i]])[j][0] <= i
  {
    var cycles' := cycles + [[i, t[i], i]];
    forall j | 0 <= j < |cycles'|
      ensures IsPairCycle(cycles'[j], t) && cycles'[j][0] <= i
    {
      if j < |cycles| {
        assert cycles'[j] == cycles[j];
      }
    }
  }

  /** A letter not yet seen starts a new pair cycle with its partner. */
  lemma AddPairCycle(cycles: seq<seq<Letter>>, seen: set<Letter>, t: seq<Letter>, i: Letter)
    requires |t| == 26 && t[t[i]] == i && t[i] != i
    requires CyclesSoFar(cycles, seen, t, i) && i !in seen
    ensures t[i] !in seen && i < t[i]
    ensures CyclesSoFar(cycles + [[i, t[i], i]], seen + {i, t[i]}, t, i + 1)
  {
    PartnerUnseen(seen, t, i);
    AppendPairLetters(cycles, i, t[i]);
    ClosedUnderPartner(seen, t, i);
    AppendPairCycle(cycles, t, i);
    assert |seen + {i, t[i]}| == |seen| + 2;
  }

  /** Once every letter has been visited, the cycles cover the alphabet, each
      letter once, in thirteen pairs. */
  lemma CyclesAtEnd(cycles: seq<seq<Letter>>, seen: set<Letter>, t: seq<Letter>)
    requires IsSwapTable(t)
    requires CyclesSoFar(cycles, seen, t, 26)
    ensures forall j :: 0 <= j < |cycles| ==> IsPairCycle(cycles[j], t)
    ensures FirstLettersIncrease(cycles)
    ensures forall x: Letter :: InSomeBody(cycles, x)
    ensures forall j, k, a, b ::
      0 <= j < |cycles| && 0 <= k < |cycles| && 0 <= a < |cycles[j]| - 1 && 0 <= b < |cycles[k]| - 1 &&
      cycles[j][a] == cycles[k][b]
      ==> j == k && a == b
    ensures |cycles| == 13 && LengthSum(cycles) == 26
  {
    PairCyclesPartition(cycles, t);
    WholeAlphabet(seen);
    LengthSumOfPairs(cycles);
    forall x: Letter
      ensures InSomeBody(cycles, x)
    {
      CycleLettersInSomeBody(cycles, x);
    }
  }

  /** The inner loop of get_cycle_structure: from the start letter, press the
      four-letter indicator round and move to its output, marking each letter
      seen, until the output is the start letter again; the cycle closes with
      the start letter repeated. */
  method TraceCycle(order: RotorOrder, start: Positions, id: ReflectorId, letter: Letter, seen: set<Letter>,
                    ghost t: seq<Letter>)
    returns (cycle: seq<Letter>, seen': set<Letter>)
    requires IsIndicatorTable(t, order, start, id) && IsSwapTable(t)
    ensures cycle == [letter, t[letter], letter] && seen' == seen + {letter, t[letter]}
  {
    assert t[t[letter]] == letter && t[letter] != letter;
    cycle := [];
    seen' := seen;
    var current := letter;
    while true
      invariant (cycle == [] && current == letter && seen' == seen) ||
                (cycle == [letter] && current == t[letter] && seen' == seen + {letter})
      decreases 2 - |cycle|
    {
      var output := IndicatorPresses(order, start, id, current, t);
      cycle := cycle + [current];
      seen' := seen' + {current};
      current := output;
      if current == letter {
        assert cycle == [letter, t[letter]] && seen' == seen + {letter, t[letter]};
        cycle := cycle + [current];
        break;
      }
    }
  }

  /** A cycle [S, T, S] of the indicator mapping with S < T. */
  predicate IsIndicatorPair(cycle: seq<Letter>, order: RotorOrder, start: Positions, id: ReflectorId) {
    |cycle| == 3 && cycle[2] == cycle[0] && cycle[0] < cycle[1] &&
    cycle[1] == IndicatorMapping(order, start, id, cycle[0])
  }

  /** Pair cycles of the table are pair cycles of the mapping. */
  lemma IndicatorPairs(cycles: seq<seq<Letter>>, t: seq<Letter>, order: RotorOrder, start: Positions, id: ReflectorId)
    requires IsIndicatorTable(t, order, start, id)
    requires forall j :: 0 <= j < |cycles| ==> IsPairCycle(cycles[j], t)
    ensures forall j :: 0 <= j < |cycles| ==> IsIndicatorPair(cycles[j], order, start, id)
  {
  }

  /** get_cycle_structure: walk the letters in order; from each letter not yet
      seen, follow the indicator mapping back to it, and record the cycle with
      its start letter repeated at the end. */
  method GetCycleStructure(order: RotorOrder, start: Positions, id: ReflectorId)
    returns (cycles: seq<seq<Letter>>)
    ensures exists t :: IsIndicatorTable(t, order, start, id) && IsSwapTable(t) &&
                        (forall j :: 0 <= j < |cycles| ==> IsPairCycle(cycles[j], t))
    ensures FirstLettersIncrease(cycles)
    ensures forall x: Letter :: InSomeBody(cycles, x)
    ensures forall j, k, a, b ::
      0 <= j < |cycles| && 0 <= k < |cycles| && 0 <= a < |cycles[j]| - 1 && 0 <= b < |cycles[k]| - 1 &&
      cycles[j][a] == cycles[k][b]
      ==> j == k && a == b
    ensures |cycles| == 13 && LengthSum(cycles) == 26
  {
    ghost var t := IndicatorTableOf(order, start, id);
    cycles := [];
    var seen: set<Letter> := {};
    CyclesAtStart(t);
    for i := 0 to 26
      invariant CyclesSoFar(cycles, seen, t, i)
    {
      var letter: Letter := i;
      if letter in seen {
        SkipSeenLetter(cycles, seen, t, i);
        continue;
      }
      AddPairCycle(cycles, seen, t, letter);
      var cycle;
      cycle, seen := TraceCycle(order, start, id, letter, seen, t);
      cycles := cycles + [cycle];
    }
    CyclesAtEnd(cycles, seen, t);
  }
}
