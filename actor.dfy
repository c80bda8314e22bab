/** vActor.cpp: Pacman or a ghost.  A vActor is a vSprite; here the actor owns
    its sprite part as the constant field `sprite`.  Rendering and textures are
    not modelled. */
module Actors {
  import Dice
  import opened Sprites

  /** AiObjective of vActor.h. */
  datatype AiObjective = AiNone | AiAvoid | AiHomicidal | AiGreedy | AiRandom

  /** The speed setType gives each sprite type: Pacman the base velocity, the
      four ghosts 80% of it, anything else 0. */
  function SpeedOf(t: SpriteType): (v: real)
    ensures t == VPacman ==> v == BaseVelocity
    ensures VRedG <= t <= VOrangeG ==> v == 0.8 * BaseVelocity
    ensures t > VOrangeG ==> v == 0.0
  {
    if t == VPacman then BaseVelocity
    else if t <= VOrangeG then 0.8 * BaseVelocity
    else 0.0
  }

  class Actor {
    const sprite: Sprite
    var velocity: real
    var isAlive: bool
    var isSelected: bool
    var isScared: bool
    var level: int
    var wayX: int
    var wayY: int
    var mode: AiObjective
    var abilityTriggered: int

    /** select() refuses a dead actor, so selecting keeps this; setLife does
        not deselect, so a ghost killed while selected stays selected. */
    ghost predicate SelectedAlive()
      reads this
    {
      isSelected ==> isAlive
    }

    /** vActor(): unselected, unscared, alive, level 0, no AI and no
        waypoint, base velocity, ability clock started at `now`; the sprite
        part is built from the draw `r`. */
    constructor (now: int, r: int)
      requires Dice.IsDraw(r)
      ensures fresh(sprite)
      ensures sprite.state == SsNa && sprite.kind == VPacman
      ensures sprite.xVel == 0.0 && sprite.yVel == 0.0
      ensures !isSelected && !isScared && isAlive && level == 0
      ensures mode == AiNone && wayX == -1 && wayY == -1
      ensures velocity == BaseVelocity && abilityTriggered == now
    {
      sprite := new Sprite(r);
      isSelected, isScared := false, false;
      isAlive := true;
      level := 0;
      mode := AiNone;
      wayX, wayY := -1, -1;
      velocity := BaseVelocity;
      abilityTriggered := now;
    }

    method SetVelocity(v: real)
      modifies this
      ensures velocity == v
      ensures isAlive == old(isAlive) && isSelected == old(isSelected) && isScared == old(isScared)
      ensures level == old(level) && wayX == old(wayX) && wayY == old(wayY)
      ensures mode == old(mode) && abilityTriggered == old(abilityTriggered)
    {
      velocity := v;
    }

    /** setLife: the source does not deselect; callers that kill an actor
        deselect it themselves where the game needs it. */
    method SetLife(l: bool)
      modifies this
      ensures isAlive == l
      ensures velocity == old(velocity) && isSelected == old(isSelected) && isScared == old(isScared)
      ensures level == old(level) && wayX == old(wayX) && wayY == old(wayY)
      ensures mode == old(mode) && abilityTriggered == old(abilityTriggered)
    {
      isAlive := l;
    }

    /** select: only a living actor becomes selected. */
    method Select()
      modifies this
      ensures isSelected == (old(isSelected) || isAlive)
      ensures old(SelectedAlive()) ==> SelectedAlive()
      ensures velocity == old(velocity) && isAlive == old(isAlive) && isScared == old(isScared)
      ensures level == old(level) && wayX == old(wayX) && wayY == old(wayY)
      ensures mode == old(mode) && abilityTriggered == old(abilityTriggered)
    {
      if isAlive {
        isSelected := true;
      }
    }

    method Deselect()
      modifies this
      ensures !isSelected && SelectedAlive()
      ensures velocity == old(velocity) && isAlive == old(isAlive) && isScared == old(isScared)
      ensures level == old(level) && wayX == old(wayX) && wayY == old(wayY)
      ensures mode == old(mode) && abilityTriggered == old(abilityTriggered)
    {
      isSelected := false;
    }

    method SetScared(s: bool)
      modifies this
      ensures isScared == s
      ensures velocity == old(velocity) && isAlive == old(isAlive) && isSelected == old(isSelected)
      ensures level == old(level) && wayX == old(wayX) && wayY == old(wayY)
      ensures mode == old(mode) && abilityTriggered == old(abilityTriggered)
    {
      isScared := s;
    }

    method LevelUp()
      modifies this
      ensures level == old(level) + 1
      ensures velocity == old(velocity) && isAlive == old(isAlive) && isSelected == old(isSelected)
      ensures isScared == old(isScared) && wayX == old(wayX) && wayY == old(wayY)
      ensures mode == old(mode) && abilityTriggered == old(abilityTriggered)
    {
      level := level + 1;
    }

    /** reset: back to level 0. */
    method Reset()
      modifies this
      ensures level == 0
      ensures velocity == old(velocity) && isAlive == old(isAlive) && isSelected == old(isSelected)
      ensures isScared == old(isScared) && wayX == old(wayX) && wayY == old(wayY)
      ensures mode == old(mode) && abilityTriggered == old(abilityTriggered)
    {
      level := 0;
    }

    method SetWaypoint(x: int, y: int)
      modifies this
      ensures wayX == x && wayY == y
      ensures velocity == old(velocity) && isAlive == old(isAlive) && isSelected == old(isSelected)
      ensures isScared == old(isScared) && level == old(level)
      ensures mode == old(mode) && abilityTriggered == old(abilityTriggered)
    {
      wayX, wayY := x, y;
    }

    method SetMode(m: AiObjective)
      modifies this
      ensures mode == m
      ensures velocity == old(velocity) && isAlive == old(isAlive) && isSelected == old(isSelected)
      ensures isScared == old(isScared) && level == old(level) && wayX == old(wayX) && wayY == old(wayY)
      ensures abilityTriggered == old(abilityTriggered)
    {
      mode := m;
    }

    method SetAbilityTriggered(t: int)
      modifies this
      ensures abilityTriggered == t
      ensures velocity == old(velocity) && isAlive == old(isAlive) && isSelected == old(isSelected)
      ensures isScared == old(isScared) && level == old(level) && wayX == old(wayX) && wayY == old(wayY)
      ensures mode == old(mode)
    {
      abilityTriggered := t;
    }

    /** vActor::setType: the sprite type changes and the speed follows it. */
    method SetType(t: SpriteType)
      modifies this, sprite
      ensures sprite.kind == t && velocity == SpeedOf(t)
      ensures sprite.x == old(sprite.x) && sprite.y == old(sprite.y)
      ensures sprite.xVel == old(sprite.xVel) && sprite.yVel == old(sprite.yVel)
      ensures sprite.timeSeed == old(sprite.timeSeed) && sprite.state == old(sprite.state)
      ensures isAlive == old(isAlive) && isSelected == old(isSelected) && isScared == old(isScared)
      ensures level == old(level) && wayX == old(wayX) && wayY == old(wayY)
      ensures mode == old(mode) && abilityTriggered == old(abilityTriggered)
    {
      sprite.SetKind(t);
      velocity := SpeedOf(t);
    }

    /** vActor::update: a dead actor does not move or animate. */
    method Update(dt: real)
      modifies sprite
      ensures old(isAlive) ==> sprite.Advanced(dt)
      ensures !old(isAlive) ==> unchanged(sprite)
    {
      if isAlive {
        sprite.Update(dt);
      }
    }
  }
}
