/** The block grid (class `Blocks`, game.js:22-76): a flat array of
    `width * height` slots, slot `i + j * width` holding the block of column
    `i` and row `j` until a ball removes it, and a counter of the live slots. */
module Grid {
  import opened Wrappers
  import opened Particles

  /** The linear slot index the source computes for grid position (x, y). */
  function Index(x: int, y: int, width: int): int
  {
    x + y * width
  }

  /** The block the constructor places at column `i`, row `j`: its identity
      is its slot, its colour depends on its column alone. */
  function BlockAt(i: nat, j: nat, width: nat): Particle
    requires width > 0
  {
    Particle(i + j * width, i as real, j as real, 0.0, 0.0, ColumnColor(i, width))
  }

  /** `hsv2rgb(360 * i / width, 1, 1)`, named by its hue. */
  function ColumnColor(i: nat, width: nat): Color
    requires width > 0
  {
    Hue(360.0 * (i as real) / (width as real))
  }

  /** 1 for a live slot, 0 for an empty one. */
  function Live(c: Option<Particle>): nat
  {
    if c.Some? then 1 else 0
  }

  /** The number of live slots of `s`. */
  function LiveCount(s: seq<Option<Particle>>): (n: nat)
    ensures n <= |s|
  {
    if s == [] then 0 else Live(s[0]) + LiveCount(s[1..])
  }

  /** Writing `c` into slot `k` changes the live count by the difference of
      the two slots' liveness. */
  lemma {:induction false} LiveCountUpdate(s: seq<Option<Particle>>, k: nat, c: Option<Particle>)
    requires k < |s|
    ensures LiveCount(s[k := c]) == LiveCount(s) - Live(s[k]) + Live(c)
  {
    if k == 0 {
      assert s[k := c][1..] == s[1..];
    } else {
      assert s[k := c][1..] == s[1..][k - 1 := c];
      LiveCountUpdate(s[1..], k - 1, c);
    }
  }

  /** The live count is zero exactly when every slot is empty. */
  lemma {:induction false} LiveCountZero(s: seq<Option<Particle>>)
    ensures LiveCount(s) == 0 <==> forall k :: 0 <= k < |s| ==> s[k].None?
  {
    if s != [] {
      LiveCountZero(s[1..]);
      if LiveCount(s) == 0 {
        forall k | 0 <= k < |s| ensures s[k].None? {
          if k > 0 { assert s[k] == s[1..][k - 1]; }
        }
      } else if s[0].None? {
        var k :| 0 <= k < |s[1..]| && s[1..][k].Some?;
        assert s[k + 1].Some?;
      }
    }
  }

  /** The live count reaches the number of slots exactly when every slot
      is live. */
  lemma {:induction false} LiveCountFull(s: seq<Option<Particle>>)
    ensures LiveCount(s) == |s| <==> forall k :: 0 <= k < |s| ==> s[k].Some?
  {
    if s != [] {
      assert forall k :: 0 <= k < |s[1..]| ==> s[1..][k] == s[k + 1];
      LiveCountFull(s[1..]);
    }
  }

  /** Column and row recovered from a linear index. */
  lemma IndexInverse(i: nat, j: nat, width: nat)
    requires i < width
    ensures Index(i, j, width) % width == i && Index(i, j, width) / width == j
  {
    var k := Index(i, j, width);
    var q, r := k / width, k % width;
    MulStep(j, q, width);
    MulStep(q, j, width);
  }

  /** A larger multiplier adds at least one more `w`. */
  lemma MulStep(a: int, b: int, w: nat)
    ensures a >= b + 1 ==> a * w >= b * w + w
  {
    if a >= b + 1 {
      assert a * w == (a - b - 1) * w + b * w + w;
    }
  }

  /** A linear index inside a `width * height` grid is a grid position. */
  lemma IndexDecompose(k: nat, width: nat, height: nat)
    requires k < width * height
    ensures width > 0 && 0 <= k % width < width && k / width < height
    ensures Index(k % width, k / width, width) == k
  {
    MulMono(k / width, height, width);
  }

  /** Multiplying by a natural number keeps the order of two integers; the
      grid's row arithmetic needs this step of non-linear reasoning. */
  lemma MulMono(a: int, b: int, w: nat)
    ensures a >= b ==> a * w >= b * w
  {
  }

  /** The grid as the constructor has filled it once every position before
      (i, j) in column-major order is done. */
  ghost function Filled(i: nat, j: nat, width: nat, height: nat): (s: seq<Option<Particle>>)
    ensures |s| == width * height
  {
    if width == 0 then []
    else seq(width * height, k requires 0 <= k < width * height =>
               if k % width < i || (k % width == i && k / width < j)
               then Some(BlockAt(k % width, k / width, width)) else None)
  }

  /** Filling position (i, j) is one slot write. */
  lemma FilledStep(i: nat, j: nat, width: nat, height: nat)
    requires i < width && j < height
    ensures 0 <= Index(i, j, width) < width * height
    ensures Filled(i, j + 1, width, height)
            == Filled(i, j, width, height)[Index(i, j, width) := Some(BlockAt(i, j, width))]
  {
    IndexBounds(i, j, width, height);
    IndexInverse(i, j, width);
    var s, t := Filled(i, j, width, height), Filled(i, j + 1, width, height);
    var u := s[Index(i, j, width) := Some(BlockAt(i, j, width))];
    forall k | 0 <= k < width * height ensures t[k] == u[k] {
      IndexDecompose(k, width, height);
    }
  }

  /** A finished column is the start of the next. */
  lemma FilledColumn(i: nat, width: nat, height: nat)
    requires i < width
    ensures Filled(i, height, width, height) == Filled(i + 1, 0, width, height)
  {
    var s, t := Filled(i, height, width, height), Filled(i + 1, 0, width, height);
    forall k | 0 <= k < width * height ensures s[k] == t[k] {
      IndexDecompose(k, width, height);
    }
  }

  /** Before the first column nothing is filled. */
  lemma FilledNone(width: nat, height: nat)
    ensures forall k :: 0 <= k < width * height ==> Filled(0, 0, width, height)[k] == None
  {
  }

  /** Once every column is done, every slot holds the block of its
      position. */
  lemma FilledComplete(width: nat, height: nat)
    ensures forall k :: 0 <= k < width * height ==>
              Filled(width, 0, width, height)[k] == Some(BlockAt(k % width, k / width, width))
    ensures forall i, j :: 0 <= i < width && 0 <= j < height ==>
              && 0 <= Index(i, j, width) < width * height
              && Filled(width, 0, width, height)[Index(i, j, width)] == Some(BlockAt(i, j, width))
  {
    var s := Filled(width, 0, width, height);
    forall k | 0 <= k < width * height
      ensures s[k] == Some(BlockAt(k % width, k / width, width))
    {
      IndexDecompose(k, width, height);
    }
    forall i, j | 0 <= i < width && 0 <= j < height
      ensures 0 <= Index(i, j, width) < width * height
      ensures s[Index(i, j, width)] == Some(BlockAt(i, j, width))
    {
      IndexBounds(i, j, width, height);
      IndexInverse(i, j, width);
    }
  }

  /** Slot `k` is empty or holds the constructor's block for its position. */
  ghost predicate Placed(c: Option<Particle>, k: nat, width: nat)
  {
    c.Some? ==> width > 0 && c.value == BlockAt(k % width, k / width, width)
  }

  /** What `getParticle` returns: `null` (`OutOfRange`) when the linear
      index is outside the array, otherwise the slot, which may be empty. */
  datatype Lookup = OutOfRange | InRange(slot: Option<Particle>)
  {
    /** The truthiness the caller tests: a live block was found. */
    predicate IsHit()
    {
      InRange? && slot.Some?
    }
  }

  /** The lookup on the slots themselves: `OutOfRange` when the linear index
      of (x, y) leaves the slots, otherwise that slot. */
  function LookupAt(slots: seq<Option<Particle>>, x: int, y: int, width: int): Lookup
  {
    var index := Index(x, y, width);
    if index >= |slots| || index < 0 then OutOfRange else InRange(slots[index])
  }

  /** Every live slot holds the block whose identity is that slot. */
  ghost predicate SlotIds(slots: seq<Option<Particle>>)
  {
    forall k :: 0 <= k < |slots| && slots[k].Some? ==> slots[k].value.id == k
  }

  class Blocks {
    const width: nat
    const height: nat
    /** The slots; `None` is the source's `undefined`. */
    const values: array<Option<Particle>>
    /** The number of blocks not yet removed. */
    var count: int

    /** The grid invariant: the array has `width * height` slots, `count` is
        the number of live ones, and every live slot holds the block the
        constructor put there. */
    ghost predicate Valid()
      reads this, values
    {
      && values.Length == width * height
      && count == LiveCount(values[..])
      && forall k :: 0 <= k < values.Length ==> Placed(values[k], k, width)
    }

    /** Fills every slot, column by column, with the block of that position;
        all blocks of a column share one colour (game.js:29-44). */
    constructor (width: nat, height: nat)
      ensures Valid() && fresh(values)
      ensures this.width == width && this.height == height
      ensures count == width * height
    {
      this.width := width;
      this.height := height;
      count := width * height;
      values := new Option<Particle>[width * height](_ => None);
      new;
      FilledNone(width, height);
      assert values[..] == Filled(0, 0, width, height);
      for i := 0 to width
        invariant count == width * height
        invariant values[..] == Filled(i, 0, width, height)
      {
        for j := 0 to height
          invariant count == width * height
          invariant values[..] == Filled(i, j, width, height)
        {
          FilledStep(i, j, width, height);
          values[Index(i, j, width)] := Some(BlockAt(i, j, width));
        }
        FilledColumn(i, width, height);
      }
      ghost var s := values[..];
      assert s == Filled(width, 0, width, height);
      FilledComplete(width, height);
      LiveCountFull(s);
    }

    /** `getParticle` (game.js:52-58): the bounds test is on the linear index
        only, so a column outside `[0, width)` may name a slot of a
        neighbouring row. */
    function GetParticle(x: int, y: int): (r: Lookup)
      reads this, values
      ensures r.OutOfRange? <==> !(0 <= Index(x, y, width) < values.Length)
      ensures r.InRange? ==> r.slot == values[Index(x, y, width)]
    {
      LookupAt(values[..], x, y, width)
    }

    /** `removeParticle` (game.js:67-75): clears a live slot and decrements
        `count`; on an empty slot or an index outside the array it returns
        nothing and changes nothing. */
    method RemoveParticle(x: int, y: int) returns (p: Option<Particle>)
      requires Valid()
      modifies this`count, values
      ensures Valid()
      ensures p == old(if GetParticle(x, y).IsHit() then GetParticle(x, y).slot else None)
      ensures p.Some? ==> && values[..] == old(values[..])[Index(x, y, width) := None]
                          && count == old(count) - 1
      ensures p.None? ==> values[..] == old(values[..]) && count == old(count)
    {
      var index := Index(x, y, width);
      p := if 0 <= index < values.Length then values[index] else None;
      if p.Some? {
        LiveCountUpdate(values[..], index, None);
        count := count - 1;
        values[index] := None;
      }
    }

    /** A position inside the grid reads its own slot, which is empty or
        holds the block of that column and row. */
    lemma GetParticleInGrid(x: nat, y: nat)
      requires Valid() && x < width && y < height
      ensures GetParticle(x, y).InRange?
      ensures GetParticle(x, y).IsHit() ==> GetParticle(x, y).slot.value == BlockAt(x, y, width)
    {
      IndexBounds(x, y, width, height);
      IndexInverse(x, y, width);
    }

    /** While no block has been removed, every grid position still reads
        the block the constructor put there. */
    lemma FullGridIsInitial()
      requires Valid() && count == width * height
      ensures forall i: nat, j: nat :: i < width && j < height ==>
                GetParticle(i, j) == InRange(Some(BlockAt(i, j, width)))
    {
      LiveCountFull(values[..]);
      forall i: nat, j: nat | i < width && j < height
        ensures GetParticle(i, j) == InRange(Some(BlockAt(i, j, width)))
      {
        IndexBounds(i, j, width, height);
        IndexInverse(i, j, width);
        assert values[..][Index(i, j, width)].Some?;
      }
    }

    /** `getParticle` returns `null` exactly when the linear index leaves
        the array; in particular for every row outside `[0, height)` when the
        column is inside `[0, width)`. */
    lemma GetParticleOutOfRange(x: int, y: int)
      requires Valid()
      ensures GetParticle(x, y).OutOfRange? <==> !(0 <= Index(x, y, width) < width * height)
      ensures 0 <= x < width && (y < 0 || y >= height) ==> GetParticle(x, y).OutOfRange?
    {
      MulMono(-1, y, width);
      MulMono(y, height, width);
    }

    /** Column `x + width` of row `y` is column `x` of row `y + 1`: the
        lookup does not reject a column past the right edge. */
    lemma GetParticleAliases(x: int, y: int)
      ensures GetParticle(x + width, y) == GetParticle(x, y + 1)
    {
      assert Index(x + width, y, width) == Index(x, y + 1, width);
    }

    /** A live slot's block carries that slot as its identity. */
    lemma SlotIdsHold()
      requires Valid()
      ensures SlotIds(values[..])
    {
      forall k | 0 <= k < values.Length && values[k].Some?
        ensures values[k].value.id == k
      {
        IndexDecompose(k, width, height);
      }
    }

    /** The game is cleared exactly when no slot is live. */
    lemma ClearedIffEmpty()
      requires Valid()
      ensures count == 0 <==> forall k :: 0 <= k < values.Length ==> values[k].None?
      ensures 0 <= count <= width * height
    {
      LiveCountZero(values[..]);
    }
  }

  /** The slot of an in-grid position lies inside the array. */
  lemma IndexBounds(i: nat, j: nat, width: nat, height: nat)
    requires i < width && j < height
    ensures 0 <= Index(i, j, width) < width * height
  {
    MulMono(height - 1, j, width);
  }

  /** Removing a block twice decrements the counter once: the second call
      returns nothing and changes nothing. */
  method RemoveTwice(blocks: Blocks, x: int, y: int) returns (first: Option<Particle>, second: Option<Particle>)
    requires blocks.Valid()
    modifies blocks`count, blocks.values
    ensures blocks.Valid()
    ensures second == None
    ensures blocks.count == old(blocks.count) - Live(first)
  {
    first := blocks.RemoveParticle(x, y);
    second := blocks.RemoveParticle(x, y);
  }
}
