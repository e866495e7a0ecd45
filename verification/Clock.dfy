/** Signed differences of clocks that wrap around, as used for PCRs and for PTS/DTS. */
module Clock {

  /** The difference `v2 - v1`, corrected by one turn when it exceeds half a turn. */
  function Difference(v1: int, v2: int, turn: int): int {
    var diff := v2 - v1;
    if diff > turn / 2 then diff - turn else if diff < -turn / 2 then diff + turn else diff
  }

  predicate Readings(v1: int, v2: int, turn: int) {
    turn > 0 && turn % 2 == 0 && 0 <= v1 < turn && 0 <= v2 < turn
  }

  /** `d` leads from v1 to v2 around the clock. */
  ghost predicate Leads(v1: int, v2: int, turn: int, d: int) {
    exists turns: int :: v1 + d - v2 == turns * turn
  }

  lemma DifferenceLeads(v1: int, v2: int, turn: int)
    requires Readings(v1, v2, turn)
    ensures var d := Difference(v1, v2, turn); Leads(v1, v2, turn, d) && -turn / 2 <= d <= turn / 2
  {
    var diff := v2 - v1;
    if diff > turn / 2 {
      assert v1 + (diff - turn) - v2 == -1 * turn;
    } else if diff < -turn / 2 {
      assert v1 + (diff + turn) - v2 == 1 * turn;
    } else {
      assert v1 + diff - v2 == 0 * turn;
    }
  }

  lemma MultipleBeyond(turns: int, turn: int)
    requires turn > 0
    ensures turns >= 2 ==> turns * turn >= 2 * turn
    ensures turns <= -2 ==> turns * turn <= -2 * turn
  {
    if turns >= 2 {
      assert turns * turn == 2 * turn + (turns - 2) * turn;
    } else if turns <= -2 {
      assert turns * turn == -2 * turn + (turns + 2) * turn;
    }
  }

  /** The difference is the shortest way from one reading to the other: it leads there, it is at
      most half a turn, and no other way is shorter. */
  lemma DifferenceIsShortest(v1: int, v2: int, turn: int, other: int)
    requires Readings(v1, v2, turn) && Leads(v1, v2, turn, other)
    ensures var d := Difference(v1, v2, turn);
      && Leads(v1, v2, turn, d) && -turn / 2 <= d <= turn / 2
      && (if d < 0 then -d else d) <= (if other < 0 then -other else other)
  {
    DifferenceLeads(v1, v2, turn);
    var turns: int :| v1 + other - v2 == turns * turn;
    MultipleBeyond(turns, turn);
    if turns == 1 {} else if turns == 0 {} else if turns == -1 {}
  }

  lemma Antisymmetric(v1: int, v2: int, turn: int)
    requires Readings(v1, v2, turn)
    ensures Difference(v2, v1, turn) == -Difference(v1, v2, turn)
  {}

  /** Readings at most half a turn apart are subtracted; half a turn keeps its direction. */
  lemma NearReadings(v1: int, v2: int, turn: int)
    requires turn > 0 && turn % 2 == 0 && -turn <= 2 * (v2 - v1) <= turn
    ensures Difference(v1, v2, turn) == v2 - v1
  {}

  lemma NoDifference(v: int, turn: int)
    requires turn > 0
    ensures Difference(v, v, turn) == 0
  {}

  // ------------------------------------------------------------------------------------------
  // Chains of readings
  // ------------------------------------------------------------------------------------------

  predicate AllReadings(vs: seq<int>, turn: int) {
    turn > 0 && turn % 2 == 0 && forall v | v in vs :: 0 <= v < turn
  }

  /** The sum of the differences of neighbours. */
  function Path(vs: seq<int>, turn: int): int {
    if |vs| < 2 then 0 else Difference(vs[0], vs[1], turn) + Path(vs[1..], turn)
  }

  /** The sum of their magnitudes. */
  function PathLength(vs: seq<int>, turn: int): (n: int)
    ensures n >= 0
  {
    if |vs| < 2 then 0 else
    var d := Difference(vs[0], vs[1], turn);
    (if d < 0 then -d else d) + PathLength(vs[1..], turn)
  }

  lemma {:induction false} PathWithinLength(vs: seq<int>, turn: int)
    ensures -PathLength(vs, turn) <= Path(vs, turn) <= PathLength(vs, turn)
  {
    if |vs| >= 2 { PathWithinLength(vs[1..], turn); }
  }

  lemma DifferencesAdd(v1: int, v2: int, v3: int, turn: int)
    requires Readings(v1, v2, turn) && Readings(v2, v3, turn)
    requires -turn / 2 < Difference(v1, v2, turn) + Difference(v2, v3, turn) < turn / 2
    ensures Difference(v1, v3, turn) == Difference(v1, v2, turn) + Difference(v2, v3, turn)
  {}

  lemma PathShorter(vs: seq<int>, turn: int)
    requires |vs| >= 2
    ensures PathLength(vs[1..], turn) <= PathLength(vs, turn)
  {}

  /** Along any chain whose steps are together shorter than half a turn, differences add up. */
  lemma {:induction false} ChainAdds(vs: seq<int>, turn: int)
    requires vs != [] && AllReadings(vs, turn) && PathLength(vs, turn) < turn / 2
    ensures Difference(vs[0], vs[|vs| - 1], turn) == Path(vs, turn)
  {
    if |vs| >= 2 {
      assert forall v | v in vs[1..] :: v in vs;
      PathShorter(vs, turn);
      ChainAdds(vs[1..], turn);
      PathWithinLength(vs, turn);
      assert vs[1] in vs && vs[|vs| - 1] in vs && vs[0] in vs;
      DifferencesAdd(vs[0], vs[1], vs[|vs| - 1], turn);
    }
  }
}
