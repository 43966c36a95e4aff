/** Particles: the one record type of the game. Grid blocks, balls and
    falling debris are all particles (game.js:4-17). */
module Particles {

  /** A particle's colour. The grid colours are `hsv2rgb(hue, 1, 1)`, whose
      floating-point conversion is not modelled: `Hue(h)` names that colour by
      its hue. `White` is the starting ball's `[255, 255, 255]`. */
  datatype Color = White | Hue(degrees: real)

  /** Position, velocity and colour as in the source. `id` stands for the
      object's identity, which `indexOf` compares; the source has no such
      field. */
  datatype Particle = Particle(id: nat, x: real, y: real, vx: real, vy: real, color: Color)

  /** No two particles of `ps` are the same object. */
  ghost predicate DistinctIds(ps: seq<Particle>)
  {
    forall i, j :: 0 <= i < j < |ps| ==> ps[i].id != ps[j].id
  }

  /** Some particle of `ps` is the object `id`. */
  ghost predicate HasId(ps: seq<Particle>, id: nat)
  {
    exists i :: 0 <= i < |ps| && ps[i].id == id
  }

}
