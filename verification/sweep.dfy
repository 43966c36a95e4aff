/** Mark-then-sweep removal (game.js:185-192, 211-218): every marked object
    is looked up with `indexOf` and spliced out, then the mark list is
    emptied. A mark may repeat, or name an object already gone. */
module Sweep {
  import opened Particles

  /** The particles of `ps` that no mark names, in their original order. */
  function Without(ps: seq<Particle>, marks: seq<nat>): (r: seq<Particle>)
    ensures |r| <= |ps|
  {
    if ps == [] then []
    else (if ps[0].id in marks then [] else [ps[0]]) + Without(ps[1..], marks)
  }

  /** A particle survives the sweep exactly when it was there and is not
      marked. */
  lemma {:induction false} WithoutMembers(ps: seq<Particle>, marks: seq<nat>, p: Particle)
    ensures p in Without(ps, marks) <==> p in ps && p.id !in marks
  {
    if ps != [] {
      WithoutMembers(ps[1..], marks, p);
      assert ps == [ps[0]] + ps[1..];
    }
  }

  /** The sweep keeps relative order: it distributes over concatenation. */
  lemma {:induction false} WithoutConcat(ps: seq<Particle>, qs: seq<Particle>, marks: seq<nat>)
    ensures Without(ps + qs, marks) == Without(ps, marks) + Without(qs, marks)
  {
    if ps == [] {
      assert ps + qs == qs;
    } else {
      assert (ps + qs)[0] == ps[0];
      assert (ps + qs)[1..] == ps[1..] + qs;
      WithoutConcat(ps[1..], qs, marks);
    }
  }

  /** Sweeping removes nothing when nothing is marked. */
  lemma {:induction false} WithoutNothing(ps: seq<Particle>)
    ensures Without(ps, []) == ps
  {
    if ps != [] {
      WithoutNothing(ps[1..]);
    }
  }

  /** Sweeping with one more mark is sweeping that mark afterwards. */
  lemma {:induction false} WithoutOneMore(ps: seq<Particle>, marks: seq<nat>, m: nat)
    ensures Without(ps, marks + [m]) == Without(Without(ps, marks), [m])
  {
    if ps != [] {
      WithoutOneMore(ps[1..], marks, m);
      if ps[0].id !in marks {
        var head := if ps[0].id == m then [] else [ps[0]];
        assert ps[0].id in marks + [m] <==> ps[0].id == m;
        assert Without([ps[0]], [m]) == head + Without([], [m]);
        calc {
          Without(ps, marks + [m]);
          head + Without(ps[1..], marks + [m]);
          head + Without(Without(ps[1..], marks), [m]);
          { WithoutConcat([ps[0]], Without(ps[1..], marks), [m]); }
          Without([ps[0]] + Without(ps[1..], marks), [m]);
          Without(Without(ps, marks), [m]);
        }
      } else {
        assert ps[0].id in marks + [m];
        assert Without(ps, marks) == Without(ps[1..], marks);
      }
    }
  }

  /** Only the set of marks matters: a repeated mark is harmless. */
  lemma {:induction false} WithoutSameMarks(ps: seq<Particle>, marks: seq<nat>, marks': seq<nat>)
    requires forall m :: m in marks <==> m in marks'
    ensures Without(ps, marks) == Without(ps, marks')
  {
    if ps != [] {
      WithoutSameMarks(ps[1..], marks, marks');
    }
  }

  /** Sweeping keeps distinct identities distinct. */
  lemma WithoutDistinct(ps: seq<Particle>, marks: seq<nat>)
    requires DistinctIds(ps)
    ensures DistinctIds(Without(ps, marks))
    ensures |Without(ps, marks)| <= |ps|
    decreases ps
  {
    if ps != [] {
      assert DistinctIds(ps[1..]);
      WithoutDistinct(ps[1..], marks);
      var rest := Without(ps[1..], marks);
      forall p | p in rest ensures p.id != ps[0].id {
        WithoutMembers(ps[1..], marks, p);
      }
    }
  }

  /** `indexOf` by identity: the first position holding object `id`, or -1. */
  method IndexOf(ps: seq<Particle>, id: nat) returns (index: int)
    ensures -1 <= index < |ps|
    ensures index == -1 <==> !HasId(ps, id)
    ensures index >= 0 ==> ps[index].id == id && forall i :: 0 <= i < index ==> ps[i].id != id
  {
    index := 0;
    while index < |ps|
      invariant 0 <= index <= |ps|
      invariant forall i :: 0 <= i < index ==> ps[i].id != id
    {
      if ps[index].id == id {
        return;
      }
      index := index + 1;
    }
    index := -1;
  }

  /** `splice(index, 1)` on a list of distinct objects removes exactly the
      object at `index`. */
  lemma {:induction false} SpliceIsWithout(ps: seq<Particle>, index: nat)
    requires index < |ps| && DistinctIds(ps)
    ensures ps[..index] + ps[index + 1..] == Without(ps, [ps[index].id])
  {
    var m := ps[index].id;
    if index == 0 {
      assert DistinctIds(ps[1..]);
      KeepUnmarked(ps[1..], m);
    } else {
      assert DistinctIds(ps[1..]);
      SpliceIsWithout(ps[1..], index - 1);
      assert ps[1..][..index - 1] + ps[1..][index..] == ps[1..index] + ps[index + 1..];
      assert ps[..index] + ps[index + 1..] == [ps[0]] + (ps[1..index] + ps[index + 1..]);
    }
  }

  /** Sweeping an identity no particle has changes nothing. */
  lemma {:induction false} KeepUnmarked(ps: seq<Particle>, m: nat)
    requires !HasId(ps, m)
    ensures Without(ps, [m]) == ps
  {
    if ps != [] {
      assert forall i :: 0 <= i < |ps[1..]| ==> ps[1..][i] == ps[i + 1];
      KeepUnmarked(ps[1..], m);
      assert ps[0].id != m;
    }
  }

  /** The sweep loop: each mark is looked up and, when found, spliced out.
      The result is `ps` without every marked object, in order. */
  method SweepMarked(ps: seq<Particle>, marks: seq<nat>) returns (rest: seq<Particle>)
    requires DistinctIds(ps)
    ensures rest == Without(ps, marks)
    ensures DistinctIds(rest)
  {
    rest := ps;
    WithoutNothing(ps);
    for j := 0 to |marks|
      invariant rest == Without(ps, marks[..j])
      invariant DistinctIds(rest)
    {
      var index := IndexOf(rest, marks[j]);
      WithoutOneMore(ps, marks[..j], marks[j]);
      assert marks[..j + 1] == marks[..j] + [marks[j]];
      if index != -1 {
        SpliceIsWithout(rest, index);
        WithoutDistinct(rest, [marks[j]]);
        rest := rest[..index] + rest[index + 1..];
      } else {
        KeepUnmarked(rest, marks[j]);
      }
    }
    assert marks[..|marks|] == marks;
  }
}
