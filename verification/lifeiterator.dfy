/** The flat iterator over a field (`GameOfLifeIter`): a cursor `(x, y)` walked with `x`
    running fastest. As written it moves the cursor before reading, so the first cell it
    yields is `(1, 0)` and `(0, 0)` is never yielded; the corrected cursor reads first. */
module LifeIterator {
  import opened Wrappers
  import opened Grid
  import opened Arith
  import opened Engine

  /** A cursor into a simulation (`GameOfLifeIter { x, y, gameoflife }`). */
  datatype LifeIter = LifeIter(x: nat, y: nat, life: Life)

  /** The cursor stays in a valid simulation with at least one column and a column index
      inside the field. */
  predicate Ready(it: LifeIter) {
    Valid(it.life) && it.life.numx >= 1 && it.x < it.life.numx
  }

  /** How many cells precede the cursor in x-fastest order. */
  function Pos(it: LifeIter): nat {
    it.y * it.life.numx + it.x
  }

  /** The cell at flat index `p` in x-fastest order, `None` past the field's end. */
  function CellAt(l: Life, p: nat): Option<nat>
    requires Valid(l) && l.numx >= 1
  {
    Cell(l, p % l.numx, p / l.numx)
  }

  /** Moving one column on from `x < n` either stays in the same `y` or wraps to column 0 of
      the next one. */
  lemma StepWraps(x: nat, n: nat)
    requires x < n
    ensures x + 1 < n ==> (x + 1) / n == 0 && (x + 1) % n == x + 1
    ensures x + 1 == n ==> (x + 1) / n == 1 && (x + 1) % n == 0
  {
    if x + 1 < n {
      DivModOfPos(x + 1, n, x + 1, 0);
    } else {
      DivModOfPos(x + 1, n, 0, 1);
    }
  }

  /** A fresh cursor at `(0, 0)` (`into_iter`). */
  function IntoIter(l: Life): (it: LifeIter)
    requires Valid(l) && l.numx >= 1
    ensures Ready(it) && it.life == l && Pos(it) == 0
  {
    LifeIter(0, 0, l)
  }

  /** `next` as written: move the cursor one cell on (wrapping to the next `y` after the last
      column), then read the cell under it. A zero-column field is excluded: the source divides
      by `numx`. */
  function Next(it: LifeIter): (res: (LifeIter, Option<nat>))
    requires Ready(it)
    ensures Ready(res.0) && res.0.life == it.life
    ensures Pos(res.0) == Pos(it) + 1
    ensures res.1 == CellAt(it.life, Pos(it) + 1)
  {
    var n := it.life.numx;
    var y := it.y + (it.x + 1) / n;
    var x := (it.x + 1) % n;
    var it' := it.(x := x, y := y);
    StepWraps(it.x, n);
    assert (it.y + 1) * n == it.y * n + n;
    DivModOfPos(Pos(it'), n, x, y);
    (it', Cell(it.life, x, y))
  }

  /** The cell at flat index `p` exists exactly when `p` is below `numx * numy`. */
  lemma CellAtSome(l: Life, p: nat)
    requires Valid(l) && l.numx >= 1
    ensures CellAt(l, p).Some? <==> p < l.numx * l.numy
  {
    DivModOfPos(p, l.numx, p % l.numx, p / l.numx);
    PosInField(l.numx, l.numy, p % l.numx, p / l.numx);
  }

  /** `k` calls of the as-written `next` from a fresh cursor. */
  function Advance(l: Life, k: nat): (it: LifeIter)
    requires Valid(l) && l.numx >= 1
    ensures Ready(it) && it.life == l
    decreases k
  {
    if k == 0 then IntoIter(l) else Next(Advance(l, k - 1)).0
  }

  /** After `k` calls the cursor stands on flat index `k`. */
  lemma {:induction false} AdvancePos(l: Life, k: nat)
    requires Valid(l) && l.numx >= 1
    ensures Pos(Advance(l, k)) == k
    decreases k
  {
    if k > 0 {
      AdvancePos(l, k - 1);
    }
  }

  /** After `k` calls the cursor is at column `k % numx` of row `k / numx`. */
  lemma AdvanceCursor(l: Life, k: nat)
    requires Valid(l) && l.numx >= 1
    ensures Advance(l, k).x == k % l.numx && Advance(l, k).y == k / l.numx
  {
    AdvancePos(l, k);
    var it := Advance(l, k);
    DivModOfPos(k, l.numx, it.x, it.y);
  }

  /** Every call of the as-written `next` reads at flat index 1 or later, so no call ever
      reads `(0, 0)`. */
  lemma NextNeverReadsOrigin(it: LifeIter)
    requires Ready(it)
    ensures Pos(Next(it).0) >= 1
    ensures Next(it).0.x != 0 || Next(it).0.y != 0
  {
    var it' := Next(it).0;
    if it'.y == 0 {
      assert Pos(it') == it'.x;
    }
  }

  /** Drains the as-written iterator, stopping at the first `None` as `collect` does: the
      cells at flat indices `1 .. numx * numy - 1`, so one cell fewer than the field holds. */
  method Collect(l: Life) returns (items: seq<nat>)
    requires Valid(l) && l.numx >= 1
    ensures |items| == if l.numy == 0 then 0 else l.numx * l.numy - 1
    ensures forall j | 0 <= j < |items| :: CellAt(l, j + 1) == Some(items[j])
  {
    var it := IntoIter(l);
    var item: Option<nat>;
    var step := Next(it);
    it, item := step.0, step.1;
    items := [];
    CellAtSome(l, 1);
    while item.Some?
      invariant Ready(it) && it.life == l
      invariant Pos(it) == |items| + 1
      invariant item == CellAt(l, Pos(it))
      invariant Pos(it) <= l.numx * l.numy || Pos(it) == 1
      invariant forall j | 0 <= j < |items| :: CellAt(l, j + 1) == Some(items[j])
      decreases l.numx * l.numy - Pos(it)
    {
      CellAtSome(l, Pos(it));
      items := items + [item.value];
      var step := Next(it);
      it, item := step.0, step.1;
    }
    CellAtSome(l, Pos(it));
    if l.numy != 0 {
      assert l.numx * l.numy >= 1 by { PosInField(l.numx, l.numy, 0, 0); }
    }
  }

  /** `next` as evidently intended: read the cell under the cursor, then move on. */
  function NextIntended(it: LifeIter): (res: (LifeIter, Option<nat>))
    requires Ready(it)
    ensures Ready(res.0) && res.0.life == it.life
    ensures Pos(res.0) == Pos(it) + 1
    ensures res.1 == CellAt(it.life, Pos(it))
  {
    DivModOfPos(Pos(it), it.life.numx, it.x, it.y);
    var item := Cell(it.life, it.x, it.y);
    (Next(it).0, item)
  }

  /** Drains the corrected iterator: every cell of the field, `(0, 0)` first, in x-fastest order. */
  method CollectIntended(l: Life) returns (items: seq<nat>)
    requires Valid(l) && l.numx >= 1
    ensures |items| == l.numx * l.numy
    ensures forall j | 0 <= j < |items| :: CellAt(l, j) == Some(items[j])
  {
    var it := IntoIter(l);
    var item: Option<nat>;
    var step := NextIntended(it);
    it, item := step.0, step.1;
    items := [];
    while item.Some?
      invariant Ready(it) && it.life == l
      invariant Pos(it) == |items| + 1
      invariant item == CellAt(l, Pos(it) - 1)
      invariant Pos(it) <= l.numx * l.numy + 1
      invariant forall j | 0 <= j < |items| :: CellAt(l, j) == Some(items[j])
      decreases l.numx * l.numy + 1 - Pos(it)
    {
      CellAtSome(l, Pos(it) - 1);
      items := items + [item.value];
      var step := NextIntended(it);
      it, item := step.0, step.1;
    }
    CellAtSome(l, Pos(it) - 1);
  }

  /** On a one-cell field the as-written iterator yields nothing at all, while the corrected
      one yields the cell. */
  lemma OneCellField(l: Life)
    requires Valid(l) && l.numx == 1 && l.numy == 1
    ensures Next(IntoIter(l)).1 == None
    ensures NextIntended(IntoIter(l)).1 == Some(l.field[0][0])
  {
    CellAtSome(l, 1);
  }
}
