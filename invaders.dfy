/**
 * The `DNAInvaders` scene as a state machine: the fields the scene updates
 * in place and the callbacks the engine invokes (spawn timer, key press,
 * one-second timer, per-frame update). Rendering, sprites and effects are
 * not modelled; the time text is kept as the string the scene sets on its
 * text object.
 */
module Invaders {
  import opened Wrappers
  import opened Nucleotides
  import opened Clock
  import opened Rules

  const TimePrefix := "Time: "
  /** The time text the scene starts with, before the first tick of the one-second timer. */
  const InitialTimeText := "Time: 0s"

  function TimeLabel(t: nat): string
  {
    if t == 0 then InitialTimeText else TimePrefix + FormatTime(t)
  }

  class Session {
    var score: int
    var timeElapsed: nat
    var baseSpeed: int
    var gameOver: bool
    var bases: seq<FallingBase>
    var timeText: string

    /**
     * The time text shows the elapsed time. The second conjunct only records
     * that every base's x comes from the spawn draw of 50 to 750; no
     * contract depends on it.
     */
    ghost predicate Valid()
      reads this
    {
      && timeText == TimeLabel(timeElapsed)
      && forall b :: b in bases ==> SpawnMinX <= b.x <= SpawnMaxX
    }

    /** A fresh session: no score, no time, initial speed, no bases, not over. */
    constructor ()
      ensures Valid()
      ensures score == 0 && timeElapsed == 0 && baseSpeed == InitialSpeed
      ensures !gameOver && bases == []
    {
      score := 0;
      timeElapsed := 0;
      baseSpeed := InitialSpeed;
      gameOver := false;
      bases := [];
      timeText := InitialTimeText;
    }

    /**
     * Spawn timer callback. `kind` and `x` are the random choices of the
     * source (a uniform base type, and an x from 50 to 750 inclusive).
     * The new base starts above the screen and falls at the speed last set
     * by Update, not at one recomputed from the score. Only the bases can
     * change.
     */
    method SpawnBase(kind: Base, x: int)
      requires Valid()
      requires SpawnMinX <= x <= SpawnMaxX
      modifies this`bases
      ensures Valid()
      ensures old(gameOver) ==> unchanged(this)
      ensures !old(gameOver) ==> bases == old(bases) + [FallingBase(kind, x, SpawnY, baseSpeed)]
    {
      if gameOver {
        return;
      }
      bases := bases + [FallingBase(kind, x, SpawnY, baseSpeed)];
    }

    /**
     * Key press callback. A key that names a base destroys every falling
     * base whose complement it is, earning 10 points each; when it destroys
     * none it costs 5 points. Any other key does nothing.
     */
    method HandleInput(key: string)
      requires Valid()
      modifies this`bases, this`score
      ensures Valid()
      ensures old(gameOver) || ParseKey(key).None? ==> unchanged(this)
      ensures !old(gameOver) && ParseKey(key).Some? ==>
                var k := ParseKey(key).value;
                && bases == Survivors(old(bases), k)
                && score == old(score) + KeyScoreDelta(MatchCount(old(bases), k))
      ensures !old(gameOver) && ParseKey(key).Some? && MatchCount(old(bases), ParseKey(key).value) == 0 ==>
                bases == old(bases) && score == old(score) - MissPenalty
    {
      if gameOver {
        return;
      }
      var parsed := ParseKey(key);
      if parsed.Some? {
        SurvivorsSound(bases, parsed.value);
        if MatchCount(bases, parsed.value) == 0 {
          KeepsAllWhenNoMatch(bases, parsed.value);
        }
        var destroyed := DestroyMatching(parsed.value);
        if !destroyed {
          score := score - MissPenalty;
        }
      }
    }

    /**
     * The scan of the key handler: walks the bases in order, destroying each
     * one that `key` matches and adding 10 points per destroyed base.
     */
    method DestroyMatching(key: Base) returns (destroyed: bool)
      modifies this`bases, this`score
      ensures bases == Survivors(old(bases), key)
      ensures score == old(score) + MatchBonus * MatchCount(old(bases), key)
      ensures destroyed <==> MatchCount(old(bases), key) > 0
    {
      var children := bases;
      destroyed := false;
      var kept: seq<FallingBase> := [];
      var i := 0;
      while i < |children|
        invariant 0 <= i <= |children|
        invariant kept == Survivors(children[..i], key)
        invariant score == old(score) + MatchBonus * MatchCount(children[..i], key)
        invariant destroyed <==> MatchCount(children[..i], key) > 0
        modifies this`score
      {
        var b := children[i];
        assert children[..i + 1] == children[..i] + [b];
        SnocOutcome(children[..i], b, key);
        if Destroys(key, b) {
          score := score + MatchBonus;
          destroyed := true;
        } else {
          kept := kept + [b];
        }
        i := i + 1;
      }
      assert children[..i] == children;
      bases := kept;
    }

    /** One-second timer callback: counts the second and shows the total as `m:ss`. */
    method UpdateTimer()
      requires Valid()
      modifies this`timeElapsed, this`timeText
      ensures Valid()
      ensures old(gameOver) ==> unchanged(this)
      ensures !old(gameOver) ==> timeElapsed == old(timeElapsed) + 1 && timeText == TimePrefix + FormatTime(timeElapsed)
    {
      if gameOver {
        return;
      }
      timeElapsed := timeElapsed + 1;
      timeText := TimePrefix + FormatTime(timeElapsed);
    }

    /**
     * Per-frame callback: sets the spawn speed from the score, and ends the
     * game when any base is strictly below the floor line.
     */
    method Update()
      requires Valid()
      modifies this`baseSpeed, this`gameOver
      ensures Valid()
      ensures old(gameOver) ==> unchanged(this)
      ensures !old(gameOver) ==> baseSpeed == SpeedFor(score) && (gameOver <==> PastFloor(bases))
    {
      if gameOver {
        return;
      }
      baseSpeed := SpeedFor(score);
      var i := 0;
      while i < |bases|
        invariant 0 <= i <= |bases|
        invariant gameOver <==> exists j :: 0 <= j < i && bases[j].y > FloorY
        modifies this`gameOver
      {
        if bases[i].y > FloorY {
          gameOver := true;
        }
        i := i + 1;
      }
      assert PastFloor(bases) <==> exists j :: 0 <= j < i && bases[j].y > FloorY;
    }

    /**
     * Stand-in for the engine's arcade physics, which moves every base by
     * its velocity times the frame time; here time is whole seconds and
     * positions are integers. The engine keeps moving bases after the game
     * is over.
     */
    method Fall(dt: nat)
      requires Valid()
      modifies this`bases
      ensures Valid()
      ensures |bases| == |old(bases)|
      ensures forall i :: 0 <= i < |bases| ==>
                bases[i] == old(bases)[i].(y := old(bases)[i].y + old(bases)[i].velocity * dt)
    {
      var moving := bases;
      bases := seq(|moving|, i requires 0 <= i < |moving| => moving[i].(y := moving[i].y + moving[i].velocity * dt));
      forall b | b in bases
        ensures SpawnMinX <= b.x <= SpawnMaxX
      {
        var i :| 0 <= i < |bases| && bases[i] == b;
        assert moving[i] in moving;
      }
    }
  }

  /** On an empty screen a base key costs 5 points, and a key that is not a base changes nothing. */
  method ExampleMiss()
  {
    var s := new Session();
    assert ParseKey("a") == Some(A) && MatchCount([], A) == 0;
    s.HandleInput("a");
    assert s.score == -5 && s.bases == [];
    assert ParseKey("Shift") == None;
    s.HandleInput("Shift");
    assert s.score == -5 && s.bases == [];
  }

  /** The complement of a falling base destroys it for 10 points. */
  method ExampleMatch()
  {
    var s := new Session();
    s.SpawnBase(A, 400);
    var b := FallingBase(A, 400, SpawnY, InitialSpeed);
    assert s.bases == [b];
    assert ParseKey("T") == Some(T);
    assert [] + [b] == [b];
    SnocOutcome([], b, T);
    s.HandleInput("T");
    assert s.bases == [] && s.score == 10;
  }

  /**
   * A base spawned at the initial speed is 550 after six seconds and 650
   * after seven; only then is it past the floor, and afterwards the scene's
   * callbacks change nothing.
   */
  method ExampleGameOver()
  {
    var s := new Session();
    s.SpawnBase(G, 100);
    s.Fall(6);
    s.Update();
    assert s.bases[0].y == 550 && !s.gameOver;
    s.Fall(1);
    s.Update();
    assert s.bases[0].y == 650 && s.gameOver;

    s.HandleInput("c");
    s.UpdateTimer();
    s.SpawnBase(A, 50);
    assert s.score == 0 && |s.bases| == 1 && s.timeElapsed == 0;
  }
}
