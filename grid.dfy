/**
 * The rune grid behind both text windows: `width * height` cells addressed
 * linearly, row by row, and the cursor kept as `(cx, cy)`. `Write` walks a
 * linear address over the input runes; this module gives the meaning of one
 * rune and of a whole input, with `None` standing for the Go panic (a store
 * outside the grid).
 */
module Grid {
  import opened Options

  /** Go's integer `/`: truncates toward zero (Dafny's `/` is Euclidean). */
  function GoDiv(a: int, b: int): (q: int)
    requires b != 0
    ensures 0 <= a && 0 < b ==> q == a / b
  {
    if 0 <= a && 0 < b then a / b
    else if a < 0 && b < 0 then (-a) / (-b)
    else if a < 0 then -((-a) / b)
    else -(a / (-b))
  }

  lemma MulNeg(x: int, y: int)
    ensures (-x) * y == -(x * y) && x * (-y) == -(x * y) && (-x) * (-y) == x * y
  {
  }

  lemma RemNonNeg(x: int, y: int)
    requires 0 <= x && 0 < y
    ensures 0 <= x - (x / y) * y < y
  {
  }

  /** The remainder left by `GoDiv` takes the sign of `a` and is smaller than `|b|` in size. */
  lemma GoDivRem(a: int, b: int)
    requires b != 0
    ensures 0 <= a && 0 < b ==> 0 <= a - GoDiv(a, b) * b < b
    ensures 0 <= a && b < 0 ==> 0 <= a - GoDiv(a, b) * b < -b
    ensures a < 0 && 0 < b ==> -b < a - GoDiv(a, b) * b <= 0
    ensures a < 0 && b < 0 ==> b < a - GoDiv(a, b) * b <= 0
  {
    if 0 <= a && 0 < b {
      RemNonNeg(a, b);
    } else if 0 <= a {
      RemNonNeg(a, -b);
      MulNeg(a / (-b), b);
    } else if 0 < b {
      RemNonNeg(-a, b);
      MulNeg((-a) / b, b);
    } else {
      RemNonNeg(-a, -b);
      MulNeg((-a) / (-b), b);
    }
  }

  /** A grid of `n` cells all holding `' '`. */
  function Blank(n: nat): (r: seq<char>)
    ensures |r| == n && forall i :: 0 <= i < n ==> r[i] == ' '
  {
    seq(n, _ => ' ')
  }

  /** The cells and the linear address `Write` carries from one rune to the next. */
  datatype Screen = Screen(cells: seq<char>, addr: int)

  /** A rune is a control rune of the window: `'\n'`, or `'\r'` when `cr`. */
  predicate Control(cr: bool, r: char)
  {
    r == '\n' || (cr && r == '\r')
  }

  /**
   * One round of `Write`'s loop on rune `r`: `'\n'` moves to the start of the
   * next row, `'\r'` (only when `cr`) to the start of the current one, and
   * any other rune is stored at `addr`, which then advances, wrapping at the
   * end of the grid. Storing outside the grid is the index panic: `None`.
   */
  function Step(width: int, cr: bool, cells: seq<char>, addr: int, r: char): (res: Option<Screen>)
    requires width != 0
    ensures res.Some? ==> |res.value.cells| == |cells|
    ensures Control(cr, r) ==> res.Some? && res.value.cells == cells
    ensures res.None? <==> !Control(cr, r) && !(0 <= addr < |cells|)
  {
    if r == '\n' then
      Some(Screen(cells, (GoDiv(addr, width) + 1) * width))
    else if cr && r == '\r' then
      Some(Screen(cells, GoDiv(addr, width) * width))
    else if 0 <= addr < |cells| then
      Some(Screen(cells[addr := r], (addr + 1) % |cells|))
    else
      None
  }

  /** `Write`'s loop over all of `s`, from `cells` and `addr`; `None` if some rune panics. */
  function Run(width: int, cr: bool, cells: seq<char>, addr: int, s: seq<char>): (res: Option<Screen>)
    requires width != 0
    ensures res.Some? ==> |res.value.cells| == |cells|
    decreases |s|
  {
    if s == [] then
      Some(Screen(cells, addr))
    else
      match Step(width, cr, cells, addr, s[0])
      case None => None
      case Some(next) => Run(width, cr, next.cells, next.addr, s[1..])
  }

  /** The cursor `cshift(addr)` leaves when started from `(0, 0)`: column and row of `addr`. */
  function CursorOf(width: int, addr: int): (c: (int, int))
    requires width != 0
    ensures c.1 * width + c.0 == addr
    ensures 0 <= addr && 0 < width ==> 0 <= c.0 < width && 0 <= c.1
  {
    var dy := GoDiv(addr, width);
    GoDivRem(addr, width);
    (addr - dy * width, dy)
  }

  /**
   * An ordinary rune is stored at `addr` and nowhere else, and the address
   * moves to the next cell, wrapping from the last cell to the first; it
   * panics exactly when `addr` is outside the grid.
   */
  lemma StoreRune(width: int, cr: bool, cells: seq<char>, addr: int, r: char)
    requires width != 0 && !Control(cr, r)
    ensures Step(width, cr, cells, addr, r).Some? <==> 0 <= addr < |cells|
    ensures 0 <= addr < |cells| ==>
      var next := Step(width, cr, cells, addr, r).value;
      && |next.cells| == |cells| && next.cells[addr] == r
      && (forall i :: 0 <= i < |cells| && i != addr ==> next.cells[i] == cells[i])
      && 0 <= next.addr < |cells|
      && (next.addr == addr + 1 || (addr == |cells| - 1 && next.addr == 0))
  {
  }

  /** `(q + 1) * w` spelled out: the solver needs this step of distributivity. */
  lemma MulSucc(q: int, w: int)
    ensures (q + 1) * w == q * w + w
  {
  }

  lemma MulAdd(a: int, b: int, w: int)
    ensures (a + b) * w == a * w + b * w
  {
  }

  lemma MulMono(a: int, b: int, w: int)
    requires a <= b && 0 <= w
    ensures a * w <= b * w
  {
    assert b * w - a * w == (b - a) * w;
  }

  /** Division by `w` is determined by any quotient and remainder that fit. */
  lemma DivUnique(x: int, w: int, q: int, r: int)
    requires 0 < w && 0 <= r < w && x == q * w + r
    ensures x / w == q && x % w == r
  {
    var q' := x / w;
    assert x == q' * w + x % w;
    if q' < q {
      MulMono(q' + 1, q, w);
      MulSucc(q', w);
    } else if q < q' {
      MulMono(q + 1, q', w);
      MulSucc(q, w);
    }
  }

  /**
   * `'\n'` writes no cell and moves to the first column of the next row: the
   * new address is a multiple of `width`, one row further down, and at most
   * `width` cells ahead.
   */
  lemma Newline(width: int, cr: bool, cells: seq<char>, addr: int)
    requires 0 < width && 0 <= addr
    ensures var next := Step(width, cr, cells, addr, '\n').value;
      && next.cells == cells
      && next.addr % width == 0 && next.addr / width == addr / width + 1
      && addr < next.addr <= addr + width
  {
    var row := addr / width;
    assert addr == row * width + addr % width;
    MulSucc(row, width);
    DivUnique((row + 1) * width, width, row + 1, 0);
  }

  /**
   * On the last row of a `width * height` grid, `'\n'` moves to
   * `width * height` itself, just past the grid, where the next ordinary rune
   * panics.
   */
  lemma NewlineOnLastRow(width: int, height: int, cr: bool, cells: seq<char>, addr: int, r: char)
    requires 0 < width && 0 < height && |cells| == width * height
    requires (height - 1) * width <= addr < |cells|
    requires !Control(cr, r)
    ensures Step(width, cr, cells, addr, '\n').value.addr == |cells|
    ensures Step(width, cr, cells, |cells|, r) == None
  {
    MulSucc(height - 1, width);
    DivUnique(addr, width, height - 1, addr - (height - 1) * width);
  }

  /** `'\r'` writes no cell, moves to the first column of the current row, and a second one changes nothing. */
  lemma CarriageReturn(width: int, cells: seq<char>, addr: int)
    requires 0 < width && 0 <= addr
    ensures var next := Step(width, true, cells, addr, '\r').value;
      && next.cells == cells
      && next.addr % width == 0 && next.addr / width == addr / width
      && addr - width < next.addr <= addr
      && Step(width, true, next.cells, next.addr, '\r') == Some(next)
  {
    var row := addr / width;
    assert addr == row * width + addr % width;
    MulMono(0, row, width);
    DivUnique(row * width, width, row, 0);
  }

  /** Without `cr`, `'\r'` is an ordinary rune: it is stored like any other. */
  lemma CarriageReturnStored(width: int, cells: seq<char>, addr: int)
    requires width != 0 && 0 <= addr < |cells|
    ensures Step(width, false, cells, addr, '\r').value.cells == cells[addr := '\r']
  {
  }

  /** Running `s + t` is running `s`, then `t` from where `s` left off; a panic in `s` ends it. */
  lemma {:induction false} RunAppend(width: int, cr: bool, cells: seq<char>, addr: int, s: seq<char>, t: seq<char>)
    requires width != 0
    ensures Run(width, cr, cells, addr, s + t) ==
      match Run(width, cr, cells, addr, s)
      case None => None
      case Some(mid) => Run(width, cr, mid.cells, mid.addr, t)
    decreases |s|
  {
    if s == [] {
      assert s + t == t;
    } else {
      assert (s + t)[0] == s[0] && (s + t)[1..] == s[1..] + t;
      match Step(width, cr, cells, addr, s[0])
      case None =>
      case Some(next) =>
        RunAppend(width, cr, next.cells, next.addr, s[1..], t);
    }
  }

  /**
   * Text without control runes that fits before the end of the grid is laid
   * down left to right from `addr`, replacing exactly the cells it covers.
   */
  lemma {:induction false} PlainText(width: int, cr: bool, cells: seq<char>, addr: int, s: seq<char>)
    requires width != 0 && 0 <= addr && addr + |s| < |cells|
    requires forall i :: 0 <= i < |s| ==> !Control(cr, s[i])
    ensures Run(width, cr, cells, addr, s) == Some(Screen(cells[..addr] + s + cells[addr + |s|..], addr + |s|))
    decreases |s|
  {
    if s == [] {
      assert cells[..addr] + s + cells[addr..] == cells;
    } else {
      assert !Control(cr, s[0]);
      var next := Step(width, cr, cells, addr, s[0]).value;
      assert next == Screen(cells[addr := s[0]], addr + 1);
      forall i | 0 <= i < |s[1..]|
        ensures !Control(cr, s[1..][i])
      {
        assert s[1..][i] == s[i + 1];
      }
      PlainText(width, cr, next.cells, addr + 1, s[1..]);
      assert next.cells[..addr + 1] + s[1..] + next.cells[addr + 1 + |s[1..]|..]
          == cells[..addr] + s + cells[addr + |s|..];
    }
  }
}
