/** The precision minigame that resolves a fight: a marker sweeps a track of
    a quarter of the window's width, two pixels per frame, wrapping at the
    end; the player's input wins if the marker is inside the centred target
    zone and costs a health point otherwise. The minigame only posts the
    outcome; the level applies it. */
module Minigames {
  import opened Types
  import opened Entities

  /** Width of the minigame's surface: a quarter of the window's. */
  function SurfaceWidth(windowWidth: nat): nat
  {
    windowWidth / 4
  }

  /** Height of the minigame's surface: a quarter of the window's. */
  function SurfaceHeight(windowHeight: nat): nat
  {
    windowHeight / 4
  }

  /** Width of the target zone: 30% of the track, rounded up. */
  function TargetWidth(w: nat): (tw: nat)
    ensures 10 * tw >= 3 * w
    ensures 10 * (tw - 1) < 3 * w
  {
    (3 * w + 9) / 10
  }

  /** Left end of the target zone, which is centred on the track. */
  function ZoneStart(w: nat, tw: nat): int
  {
    (w - tw) / 2
  }

  /** The marker is in the zone, both ends included. */
  predicate InZone(pos: int, w: nat, tw: nat)
  {
    ZoneStart(w, tw) <= pos <= ZoneStart(w, tw) + tw
  }

  /** The one event an input posts. */
  function InputEvent(pos: int, w: nat, tw: nat, enemy: Entity): Event
  {
    if InZone(pos, w, tw) then EnemyDefeated(enemy.row, enemy.col) else DamageReceived
  }

  /** An input posts ENEMY_DEFEATED with the enemy's cell exactly when the
      marker is in the zone, and DAMAGE_RECEIVED exactly when it is not. */
  lemma InputEventSpec(pos: int, w: nat, tw: nat, enemy: Entity)
    ensures InputEvent(pos, w, tw, enemy) == EnemyDefeated(enemy.row, enemy.col) <==> InZone(pos, w, tw)
    ensures InputEvent(pos, w, tw, enemy) == DamageReceived <==> !InZone(pos, w, tw)
  {
  }

  /** On a nonempty track the zone is nonempty and lies inside the track. */
  lemma ZoneInsideTrack(w: nat)
    requires w > 0
    ensures var tw := TargetWidth(w);
            && 0 < tw <= w
            && 0 <= ZoneStart(w, tw)
            && ZoneStart(w, tw) + tw <= w
  {
    var tw := TargetWidth(w);
    assert tw <= w;
    assert 0 <= w - tw;
  }

  /** The marker's position after `frames` frames, starting from 0. */
  function MarkerAfter(frames: nat, w: nat): (pos: nat)
    requires w > 0
    ensures pos < w
  {
    if frames == 0 then 0 else (MarkerAfter(frames - 1, w) + 2) % w
  }

  /** Until the marker wraps, it sits at twice the number of frames. */
  lemma {:induction false} MarkerBeforeWrap(frames: nat, w: nat)
    requires w > 0 && 2 * frames < w
    ensures MarkerAfter(frames, w) == 2 * frames
  {
    if frames > 0 {
      MarkerBeforeWrap(frames - 1, w);
      assert MarkerAfter(frames, w) == (2 * (frames - 1) + 2) % w;
      ModSmall(2 * frames, w);
    }
  }

  lemma ModSmall(x: int, w: int)
    requires 0 <= x < w
    ensures x % w == x
  {
  }

  /** The game is winnable: on every nonempty track some frame finds the
      marker inside the target zone. */
  lemma ZoneReachable(w: nat)
    requires w > 0
    ensures exists frames: nat :: InZone(MarkerAfter(frames, w), w, TargetWidth(w))
  {
    var tw := TargetWidth(w);
    ZoneInsideTrack(w);
    var lo := ZoneStart(w, tw);
    var p := if lo % 2 == 0 then lo else lo + 1;
    assert p < w;
    var n: nat := p / 2;
    assert 2 * n == p;
    MarkerBeforeWrap(n, w);
    assert MarkerAfter(n, w) == p;
  }

  /** One precision minigame, owned by the enemy it was created for. */
  class PrecisionMinigame {
    const enemy: Entity
    var started: bool
    const surfaceWidth: nat
    const surfaceHeight: nat
    const targetWidth: nat
    var pos: int
    var posted: seq<Event>
    /** Frames rendered so far. */
    ghost var frames: nat

    ghost predicate Valid()
      reads this
    {
      && targetWidth == TargetWidth(surfaceWidth)
      && 0 <= pos
      && (surfaceWidth == 0 ==> pos == 0)
      && (surfaceWidth > 0 ==> pos == MarkerAfter(frames, surfaceWidth))
    }

    /** A new minigame: not started, marker at 0, zone 30% of the track. */
    constructor (enemy: Entity, windowWidth: nat, windowHeight: nat)
      ensures Valid()
      ensures this.enemy == enemy && !started && pos == 0 && posted == [] && frames == 0
      ensures surfaceWidth == SurfaceWidth(windowWidth)
      ensures surfaceHeight == SurfaceHeight(windowHeight)
      ensures targetWidth == TargetWidth(surfaceWidth)
    {
      this.enemy := enemy;
      started := false;
      surfaceWidth := SurfaceWidth(windowWidth);
      surfaceHeight := SurfaceHeight(windowHeight);
      pos := 0;
      targetWidth := TargetWidth(SurfaceWidth(windowWidth));
      posted := [];
      frames := 0;
    }

    /** `start`: marks the minigame started and changes nothing else. */
    method Start()
      modifies this`started
      ensures started
    {
      started := true;
    }

    /** The marker update at the end of each rendered frame; the track must
        be nonempty, since the update takes the position modulo its width. */
    method Advance()
      requires Valid() && surfaceWidth > 0
      modifies this`pos, this`frames
      ensures Valid()
      ensures pos == (old(pos) + 2) % surfaceWidth
      ensures 0 <= pos < surfaceWidth
      ensures frames == old(frames) + 1
    {
      pos := (pos + 2) % surfaceWidth;
      frames := frames + 1;
    }

    /** `input`: posts exactly one event, chosen by whether the marker is in
        the zone; the marker, the started flag and the enemy are untouched. */
    method Input()
      modifies this`posted
      ensures posted == old(posted) + [InputEvent(pos, surfaceWidth, targetWidth, enemy)]
    {
      if ZoneStart(surfaceWidth, targetWidth) <= pos <= ZoneStart(surfaceWidth, targetWidth) + targetWidth {
        posted := posted + [EnemyDefeated(enemy.row, enemy.col)];
      } else {
        posted := posted + [DamageReceived];
      }
    }
  }
}
