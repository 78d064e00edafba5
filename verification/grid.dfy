/** Nested `for y in range(..): for x in range(..)` loops over screen or
    map cells, and the draw loop that runs a per-cell step over them. */
module Grid {
  import opened Wrappers
  import opened Arith

  datatype Cell = Cell(x: int, y: int)

  /** A destination rectangle on the screen (a `pygame.Rect`). */
  datatype Rect = Rect(x: int, y: int, width: int, height: int)

  /** The size of an image or of a piece of rendered text. */
  datatype Size = Size(w: int, h: int)

  /** `Rect.collidepoint`: the right and bottom edges are outside. */
  predicate Contains(r: Rect, x: int, y: int) {
    r.x <= x < r.x + r.width && r.y <= y < r.y + r.height
  }

  /** One `surface.blit(tiles[tile], target)` call. */
  datatype Blit = Blit(tile: int, target: Rect)

  /** `for x in range(x0, x1)` on row `y`. */
  function Row(y: int, x0: int, x1: int): (cs: seq<Cell>)
    ensures |cs| == if x1 > x0 then x1 - x0 else 0
    ensures forall i :: 0 <= i < |cs| ==> cs[i] == Cell(x0 + i, y)
    ensures forall c :: c in cs <==> c.y == y && x0 <= c.x < x1
    decreases x1 - x0
  {
    if x0 >= x1 then [] else [Cell(x0, y)] + Row(y, x0 + 1, x1)
  }

  /** Strictly increasing in row-major order: earlier rows first, and
      left to right within a row. */
  predicate RowMajorOrdered(cs: seq<Cell>) {
    forall i, j :: 0 <= i < j < |cs| ==>
      cs[i].y < cs[j].y || (cs[i].y == cs[j].y && cs[i].x < cs[j].x)
  }

  /** `for y in range(y0, y1): for x in range(x0, x1)`: every cell of the
      rectangle exactly once, row by row. */
  function RowMajor(x0: int, x1: int, y0: int, y1: int): (cs: seq<Cell>)
    ensures forall c :: c in cs <==> x0 <= c.x < x1 && y0 <= c.y < y1
    ensures RowMajorOrdered(cs)
    ensures |cs| == Span(y0, y1) * Span(x0, x1)
    decreases y1 - y0
  {
    if y0 >= y1 then []
    else
      var row := Row(y0, x0, x1);
      var rest := RowMajor(x0, x1, y0 + 1, y1);
      RowThenRest(row, rest, x0, y0);
      SpanStep(y0, y1, Span(x0, x1));
      row + rest
  }

  /** A row followed by later rows, each in order, is in order. */
  lemma RowThenRest(row: seq<Cell>, rest: seq<Cell>, x0: int, y0: int)
    requires forall i :: 0 <= i < |row| ==> row[i] == Cell(x0 + i, y0)
    requires RowMajorOrdered(rest)
    requires forall c :: c in rest ==> c.y > y0
    ensures RowMajorOrdered(row + rest)
  {
    var s := row + rest;
    forall i, j | 0 <= i < j < |s|
      ensures s[i].y < s[j].y || (s[i].y == s[j].y && s[i].x < s[j].x)
    {
      if |row| <= i {
        assert s[i] == rest[i - |row|] && s[j] == rest[j - |row|];
      } else if |row| <= j {
        assert s[j] == rest[j - |row|] && s[j] in rest;
      }
    }
  }

  lemma SpanStep(y0: int, y1: int, w: nat)
    requires y0 < y1
    ensures Span(y0, y1) * w == w + Span(y0 + 1, y1) * w
  {
    assert Span(y0, y1) == 1 + Span(y0 + 1, y1);
  }

  /** `len(range(a, b))`. */
  function Span(a: int, b: int): nat {
    if b > a then b - a else 0
  }

  /** Entry `k` of the row-major walk is column `k % w`, row `k // w` of
      the rectangle, `w` being its width. */
  lemma {:induction false} RowMajorAt(x0: int, x1: int, y0: int, y1: int, k: int)
    requires 0 <= k < |RowMajor(x0, x1, y0, y1)|
    ensures x1 > x0
    ensures RowMajor(x0, x1, y0, y1)[k] == Cell(x0 + k % (x1 - x0), y0 + k / (x1 - x0))
    decreases y1 - y0
  {
    var w := Span(x0, x1);
    if w == 0 {
      assert false;
    }
    var row := Row(y0, x0, x1);
    var rest := RowMajor(x0, x1, y0 + 1, y1);
    assert RowMajor(x0, x1, y0, y1) == row + rest;
    if k < w {
      DivModUnique(k, w, 0, k);
    } else {
      RowMajorAt(x0, x1, y0 + 1, y1, k - w);
      DivModStep(k, w);
    }
  }

  /** Runs one draw step per cell, in order. A step either fails (the
      Python exception that aborts the whole loop), draws one value, or
      draws nothing. */
  function Collect<A, B(==,!new), E>(cells: seq<A>, f: A -> Result<Option<B>, E>): (r: Result<seq<B>, E>)
    ensures r.Success? <==> forall i :: 0 <= i < |cells| ==> f(cells[i]).Success?
    ensures r.Failure? ==> exists i :: 0 <= i < |cells| && f(cells[i]).Failure? && f(cells[i]).error == r.error
    ensures r.Success? ==> |r.value| <= |cells|
    ensures r.Success? ==> forall b :: b in r.value <==>
      exists i :: 0 <= i < |cells| && f(cells[i]).Success? && f(cells[i]).value == Some(b)
  {
    if |cells| == 0 then Success([])
    else
      match f(cells[0])
      case Failure(e) => Failure(e)
      case Success(o) =>
        match Collect(cells[1..], f)
        case Failure(e) => Failure(e)
        case Success(bs) =>
          Success(if o.Some? then [o.value] + bs else bs)
  }

  /** Running the loop over `a`, then over `b`: the first failure wins,
      otherwise the blits of `a` come before those of `b`. */
  function Then<B, E>(r1: Result<seq<B>, E>, r2: Result<seq<B>, E>): Result<seq<B>, E> {
    if r1.Failure? then r1 else if r2.Failure? then r2 else Success(r1.value + r2.value)
  }

  /** One cell: its step's error, or its blit if it draws one. */
  lemma CollectOne<A, B(!new), E>(c: A, f: A -> Result<Option<B>, E>)
    ensures f(c).Failure? ==> Collect([c], f) == Failure(f(c).error)
    ensures f(c).Success? && f(c).value.Some? ==> Collect([c], f) == Success([f(c).value.value])
    ensures f(c).Success? && f(c).value.None? ==> Collect([c], f) == Success([])
  {
    assert [c][1..] == [];
    if f(c).Success? && f(c).value.Some? {
      assert [f(c).value.value] + [] == [f(c).value.value];
    }
  }

  /** The loop over `a + b` is the loop over `a` followed by the loop over
      `b`: the blits come in cell order, and the error raised is that of
      the earlier part. */
  lemma {:induction false} CollectAppend<A, B(!new), E>(a: seq<A>, b: seq<A>, f: A -> Result<Option<B>, E>)
    ensures Collect(a + b, f) == Then(Collect(a, f), Collect(b, f))
    decreases |a|
  {
    if |a| == 0 {
      assert a + b == b;
      if Collect(b, f).Success? {
        assert [] + Collect(b, f).value == Collect(b, f).value;
      }
    } else {
      assert (a + b)[0] == a[0];
      assert (a + b)[1..] == a[1..] + b;
      CollectAppend(a[1..], b, f);
      if f(a[0]).Success? && Collect(a[1..], f).Success? && Collect(b, f).Success? && f(a[0]).value.Some? {
        var x, y := Collect(a[1..], f).value, Collect(b, f).value;
        assert [f(a[0]).value.value] + (x + y) == ([f(a[0]).value.value] + x) + y;
      }
    }
  }

  /** The nested `range` loops draw row `y0` first, then the later rows. */
  lemma CollectRows<B(!new), E>(x0: int, x1: int, y0: int, y1: int, f: Cell -> Result<Option<B>, E>)
    requires y0 < y1
    ensures Collect(RowMajor(x0, x1, y0, y1), f)
         == Then(Collect(Row(y0, x0, x1), f), Collect(RowMajor(x0, x1, y0 + 1, y1), f))
  {
    CollectAppend(Row(y0, x0, x1), RowMajor(x0, x1, y0 + 1, y1), f);
  }

  /** Within a row, the leftmost cell is drawn first. */
  lemma CollectRowCells<B(!new), E>(y: int, x0: int, x1: int, f: Cell -> Result<Option<B>, E>)
    requires x0 < x1
    ensures Collect(Row(y, x0, x1), f) == Then(Collect([Cell(x0, y)], f), Collect(Row(y, x0 + 1, x1), f))
  {
    CollectAppend([Cell(x0, y)], Row(y, x0 + 1, x1), f);
  }

  /** The error the loop raises is the first failing cell's: every cell
      before it succeeded. */
  lemma {:induction false} CollectFirst<A, B(!new), E>(cells: seq<A>, f: A -> Result<Option<B>, E>)
    requires Collect(cells, f).Failure?
    ensures exists i :: (0 <= i < |cells| && f(cells[i]) == Failure(Collect(cells, f).error)
                         && forall j :: 0 <= j < i ==> f(cells[j]).Success?)
    decreases |cells|
  {
    if f(cells[0]).Failure? {
      assert f(cells[0]) == Failure(Collect(cells, f).error);
    } else {
      CollectFirst(cells[1..], f);
      var i :| (0 <= i < |cells[1..]| && f(cells[1..][i]) == Failure(Collect(cells[1..], f).error)
                && forall j :: 0 <= j < i ==> f(cells[1..][j]).Success?);
      assert f(cells[i + 1]) == Failure(Collect(cells, f).error);
      forall j | 0 <= j < i + 1
        ensures f(cells[j]).Success?
      {
        if j > 0 {
          assert cells[j] == cells[1..][j - 1];
        }
      }
    }
  }

  /** When every step succeeds with a known outcome `g`, the loop succeeds
      and draws exactly the values `g` draws. */
  lemma CollectTotal<A, B(!new), E>(cells: seq<A>, f: A -> Result<Option<B>, E>, g: A -> Option<B>)
    requires forall i :: 0 <= i < |cells| ==> f(cells[i]) == Success(g(cells[i]))
    ensures Collect(cells, f).Success?
    ensures forall b :: b in Collect(cells, f).value <==> exists i :: 0 <= i < |cells| && g(cells[i]) == Some(b)
  {
  }

  /** Some position of `cells` draws `b` iff some member of `cells` does. */
  lemma SomeIndexIffMember<A, B>(cells: seq<A>, g: A -> Option<B>, b: B)
    ensures (exists i :: 0 <= i < |cells| && g(cells[i]) == Some(b)) <==> (exists c :: c in cells && g(c) == Some(b))
  {
    if exists c :: c in cells && g(c) == Some(b) {
      var c :| c in cells && g(c) == Some(b);
      var i :| 0 <= i < |cells| && cells[i] == c;
    }
  }

  /** The draw loop over a rectangle of cells, when every cell's step
      succeeds with a known outcome `g`: it succeeds and draws exactly what
      `g` draws for the cells of the rectangle. */
  lemma CollectRect<B(!new), E>(x0: int, x1: int, y0: int, y1: int, f: Cell -> Result<Option<B>, E>, g: Cell -> Option<B>)
    requires forall c: Cell :: x0 <= c.x < x1 && y0 <= c.y < y1 ==> f(c) == Success(g(c))
    ensures Collect(RowMajor(x0, x1, y0, y1), f).Success?
    ensures forall b :: b in Collect(RowMajor(x0, x1, y0, y1), f).value <==>
      exists c: Cell :: x0 <= c.x < x1 && y0 <= c.y < y1 && g(c) == Some(b)
  {
    var cells := RowMajor(x0, x1, y0, y1);
    forall i | 0 <= i < |cells|
      ensures f(cells[i]) == Success(g(cells[i]))
    {
      assert cells[i] in cells;
    }
    CollectTotal(cells, f, g);
    forall b
      ensures (exists i :: 0 <= i < |cells| && g(cells[i]) == Some(b)) <==>
              (exists c: Cell :: x0 <= c.x < x1 && y0 <= c.y < y1 && g(c) == Some(b))
    {
      SomeIndexIffMember(cells, g, b);
    }
  }
}
