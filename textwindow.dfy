/**
 * `TextWindow` of textwindow.go: the same rune grid and cursor as window.go,
 * whose `Write` also understands `'\r'`, a return to the start of the
 * current row.
 */
module TextWindow {
  import opened Grid

  class TextWindow {
    const width: int
    const height: int
    const runes: array<char>
    /** Cursor column and row. */
    var cx: int
    var cy: int

    /** `NewTextWindow`: `width * height` cells, all blank, cursor at `(0, 0)`. */
    constructor (width: int, height: int)
      requires 0 <= width * height
      ensures this.width == width && this.height == height
      ensures runes.Length == width * height && runes[..] == Blank(width * height)
      ensures cx == 0 && cy == 0 && fresh(runes)
    {
      this.width := width;
      this.height := height;
      runes := new char[width * height];
      cx := 0;
      cy := 0;
      new;
      Clear();
    }

    /** Blanks every cell; the cursor stays where it is. */
    method Clear()
      modifies runes
      ensures runes[..] == Blank(runes.Length)
    {
      var n := 0;
      while n < runes.Length
        invariant 0 <= n <= runes.Length
        invariant runes[..n] == Blank(n)
      {
        runes[n] := ' ';
        n := n + 1;
      }
    }

    function CPos(): (int, int)
      reads this
    {
      (cx, cy)
    }

    /** Moves the cursor anywhere, unchecked; `CPos` then reports exactly that position. */
    method SetCPos(x: int, y: int)
      modifies this
      ensures CPos() == (x, y)
    {
      cx := x;
      cy := y;
    }

    /**
     * Moves the cursor `shift` cells along the rows: the linear address
     * `cy * width + cx` grows by `shift`, and the column is normalised into
     * the row (for a non-negative column sum and positive width, into
     * `[0, width)`).
     */
    method CShift(shift: int)
      requires width != 0
      modifies this
      ensures cy * width + cx == old(cy) * width + old(cx) + shift
      ensures cy == old(cy) + GoDiv(old(cx) + shift, width)
      ensures 0 <= old(cx) + shift && 0 < width ==> 0 <= cx < width
    {
      cx := cx + shift;
      var dy := GoDiv(cx, width);
      GoDivRem(cx, width);
      MulAdd(cy, dy, width);
      cx := cx - dy * width;
      cy := cy + dy;
    }

    /**
     * Writes the runes of `s` from the cursor: the cells and the cursor end
     * as `Run` says, and the count returned is always 0. Needs a non-zero
     * width (Go divides by it) and no rune stored outside the grid (Go
     * panics there).
     */
    method Write(s: seq<char>) returns (r: int)
      requires width != 0
      requires Run(width, true, runes[..], cy * width + cx, s).Some?
      modifies this, runes
      ensures var res := Run(width, true, old(runes[..]), old(cy * width + cx), s).value;
        runes[..] == res.cells && CPos() == CursorOf(width, res.addr)
      ensures r == 0
    {
      ghost var spec := Run(width, true, runes[..], cy * width + cx, s);
      var addr := cy * width + cx;
      var rest := s;
      while |rest| > 0
        invariant Run(width, true, runes[..], addr, rest) == spec
        decreases |rest|
      {
        var c := rest[0];
        if c == '\n' {
          addr := (GoDiv(addr, width) + 1) * width;
        } else if c == '\r' {
          addr := GoDiv(addr, width) * width;
        } else {
          runes[addr] := c;
          addr := (addr + 1) % runes.Length;
        }
        rest := rest[1..];
      }
      cx := 0;
      cy := 0;
      CShift(addr);
      r := |rest|;
    }
  }
}
