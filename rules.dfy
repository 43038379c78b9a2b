/**
 * The constants and pure rules of a DNA Invaders session: the falling
 * bases, which of them a key press destroys, the score it earns, the speed
 * ramp and the loss condition.
 */
module Rules {
  import opened Nucleotides

  const InitialSpeed := 100
  const SpeedStep := 20
  const PointsPerStep := 50
  const MatchBonus := 10
  const MissPenalty := 5
  const SpawnY := -50
  const SpawnMinX := 50
  const SpawnMaxX := 750
  const FloorY := 600

  /** One falling base: its type, position and the vertical velocity it was given when spawned. */
  datatype FallingBase = FallingBase(kind: Base, x: int, y: int, velocity: int)

  /** Pressing `key` destroys a falling base exactly when the base's complement is `key`. */
  predicate Destroys(key: Base, b: FallingBase)
  {
    Complement(b.kind) == key
  }

  /** Equivalently, the key destroys exactly the bases of the key's own complement. */
  lemma DestroysKind(key: Base, b: FallingBase)
    ensures Destroys(key, b) <==> b.kind == Complement(key)
  {
  }

  // ---------------------------------------------------------------------
  // Speed ramp

  /** Velocity given to newly spawned bases: 20 more for every full 50 points (floor division). */
  function SpeedFor(score: int): int
  {
    InitialSpeed + (score / PointsPerStep) * SpeedStep
  }

  /**
   * The speed is determined by the band of 50 points the score lies in,
   * counted from zero in both directions (the floor of score/50), with no
   * clamping for negative scores.
   */
  lemma SpeedBand(score: int, k: int)
    requires PointsPerStep * k <= score < PointsPerStep * k + PointsPerStep
    ensures SpeedFor(score) == InitialSpeed + SpeedStep * k
  {
  }

  lemma SpeedMonotone(s1: int, s2: int)
    requires s1 <= s2
    ensures SpeedFor(s1) <= SpeedFor(s2)
  {
  }

  lemma SpeedExamples()
    ensures SpeedFor(0) == 100 && SpeedFor(49) == 100
    ensures SpeedFor(50) == 120 && SpeedFor(100) == 140
    ensures SpeedFor(-5) == 80
    ensures SpeedFor(-201) == 0 && SpeedFor(-251) < 0
  {
  }

  // ---------------------------------------------------------------------
  // A key press over the falling bases

  /** The bases a press of `key` leaves, in their original order. */
  function Survivors(s: seq<FallingBase>, key: Base): seq<FallingBase>
  {
    if s == [] then []
    else Survivors(s[..|s| - 1], key) + (if Destroys(key, s[|s| - 1]) then [] else [s[|s| - 1]])
  }

  /** How many of the bases a press of `key` destroys. */
  function MatchCount(s: seq<FallingBase>, key: Base): nat
  {
    if s == [] then 0
    else MatchCount(s[..|s| - 1], key) + (if Destroys(key, s[|s| - 1]) then 1 else 0)
  }

  /** Extending the bases by one extends the survivors and the count by that one base's outcome. */
  lemma SnocOutcome(s: seq<FallingBase>, b: FallingBase, key: Base)
    ensures Survivors(s + [b], key) == Survivors(s, key) + if Destroys(key, b) then [] else [b]
    ensures MatchCount(s + [b], key) == MatchCount(s, key) + if Destroys(key, b) then 1 else 0
  {
  }

  /** Only bases of the sequence that the key does not match survive. */
  lemma {:induction false} SurvivorsSound(s: seq<FallingBase>, key: Base)
    ensures forall b :: b in Survivors(s, key) ==> b in s && !Destroys(key, b)
  {
    if s != [] {
      SurvivorsSound(s[..|s| - 1], key);
    }
  }

  /** A press destroys nothing exactly when no base in the sequence is matched by the key. */
  lemma {:induction false} MatchCountZeroIff(s: seq<FallingBase>, key: Base)
    ensures MatchCount(s, key) == 0 <==> forall b :: b in s ==> !Destroys(key, b)
  {
    if s != [] {
      var init, last := s[..|s| - 1], s[|s| - 1];
      assert s == init + [last];
      MatchCountZeroIff(init, key);
    }
  }

  /** Every base is either destroyed or survives. */
  lemma {:induction false} SurvivorsCount(s: seq<FallingBase>, key: Base)
    ensures |Survivors(s, key)| + MatchCount(s, key) == |s|
  {
    if s != [] {
      SurvivorsCount(s[..|s| - 1], key);
    }
  }

  /**
   * A press removes every occurrence of a matching base and keeps every
   * occurrence of any other base.
   */
  lemma {:induction false} SurvivorsMultiset(s: seq<FallingBase>, key: Base, b: FallingBase)
    ensures multiset(Survivors(s, key))[b] == if Destroys(key, b) then 0 else multiset(s)[b]
  {
    if s != [] {
      var init, last := s[..|s| - 1], s[|s| - 1];
      assert s == init + [last];
      SurvivorsMultiset(init, key, b);
    }
  }

  /** Survivors keep their relative order: filtering commutes with concatenation. */
  lemma {:induction false} SurvivorsAppend(s: seq<FallingBase>, t: seq<FallingBase>, key: Base)
    ensures Survivors(s + t, key) == Survivors(s, key) + Survivors(t, key)
    decreases |t|
  {
    if t == [] {
      assert s + t == s;
    } else {
      var init, last := t[..|t| - 1], t[|t| - 1];
      assert (s + t)[..|s + t| - 1] == s + init;
      SurvivorsAppend(s, init, key);
    }
  }

  /** A press that matches nothing leaves the bases as they were, and only such a press does. */
  lemma SurvivorsAllIffNoMatch(s: seq<FallingBase>, key: Base)
    ensures Survivors(s, key) == s <==> MatchCount(s, key) == 0
  {
    SurvivorsCount(s, key);
    if MatchCount(s, key) == 0 {
      KeepsAllWhenNoMatch(s, key);
    }
  }

  lemma {:induction false} KeepsAllWhenNoMatch(s: seq<FallingBase>, key: Base)
    requires MatchCount(s, key) == 0
    ensures Survivors(s, key) == s
  {
    if s != [] {
      KeepsAllWhenNoMatch(s[..|s| - 1], key);
    }
  }

  /** The score change of a press of a base key that destroys `matched` bases. */
  function KeyScoreDelta(matched: nat): (d: int)
    ensures d > 0 <==> matched > 0
    ensures matched > 0 ==> d == MatchBonus * matched
    ensures matched == 0 ==> d == -MissPenalty
  {
    if matched > 0 then MatchBonus * matched else -MissPenalty
  }

  // ---------------------------------------------------------------------
  // The loss condition

  /** Some base has moved strictly below the floor line. */
  predicate PastFloor(s: seq<FallingBase>)
  {
    exists i :: 0 <= i < |s| && s[i].y > FloorY
  }

  // ---------------------------------------------------------------------
  // The scan as the scene's input handler performs it

  /**
   * The key handler destroys bases while `forEach` walks the group's live
   * child array, and each destroyed base is spliced out of that array, so
   * the walk steps over the base that follows a destroyed one. `i` is the
   * walk's index into the current array.
   */
  function LiveScan(s: seq<FallingBase>, i: nat, key: Base): (r: seq<FallingBase>)
    ensures |r| <= |s|
    ensures forall b :: b in r ==> b in s
    decreases |s| - i + 1
  {
    if i >= |s| then s
    else if Destroys(key, s[i]) then LiveScan(s[..i] + s[i + 1..], i + 1, key)
    else LiveScan(s, i + 1, key)
  }

  /**
   * Two adjacent matching bases: the live walk destroys one (+10), the
   * intended scan both (+20).
   */
  lemma LiveScanSkipsNeighbour()
    ensures var b := FallingBase(A, 400, 100, InitialSpeed);
            && LiveScan([b, b], 0, T) == [b]
            && |[b, b]| - |LiveScan([b, b], 0, T)| == 1
            && Survivors([b, b], T) == []
            && MatchCount([b, b], T) == 2
  {
    var b := FallingBase(A, 400, 100, InitialSpeed);
    assert [b, b][..0] + [b, b][1..] == [b];
    assert [] + [b] == [b] && [b] + [b] == [b, b];
    SnocOutcome([], b, T);
    SnocOutcome([b], b, T);
  }
}
