/**
 * `textWindow` of window.go: a `width * height` grid of runes and a cursor.
 * `Write` lays runes down from the cursor's linear address, `'\n'` starts a
 * new row, and the address it ends at becomes the new cursor.
 */
module Window {
  import opened Options
  import opened Grid

  class TextWindow {
    const width: int
    const height: int
    const runes: array<char>
    /** Cursor column and row. */
    var cx: int
    var cy: int

    /** `NewTextWindow`: `width * height` cells, all blank, cursor at `(0, 0)`. */
    constructor (width: int, height: int)
      requires 0 <= width * height
      ensures this.width == width && this.height == height
      ensures runes.Length == width * height && runes[..] == Blank(width * height)
      ensures cx == 0 && cy == 0 && fresh(runes)
    {
      this.width := width;
      this.height := height;
      runes := new char[width * height];
      cx := 0;
      cy := 0;
      new;
      Clear();
    }

    /** Blanks every cell; the cursor stays where it is. */
    method Clear()
      modifies runes
      ensures runes[..] == Blank(runes.Length)
    {
      var n := 0;
      while n < runes.Length
        invariant 0 <= n <= runes.Length
        invariant runes[..n] == Blank(n)
      {
        runes[n] := ' ';
        n := n + 1;
      }
    }

    function CPos(): (int, int)
      reads this
    {
      (cx, cy)
    }

    /** Moves the cursor anywhere, unchecked; `CPos` then reports exactly that position. */
    method SetCPos(x: int, y: int)
      modifies this
      ensures CPos() == (x, y)
    {
      cx := x;
      cy := y;
    }

    /**
     * Moves the cursor `shift` cells along the rows: the linear address
     * `cy * width + cx` grows by `shift`, and the column is normalised into
     * the row (for a non-negative column sum and positive width, into
     * `[0, width)`).
     */
    method CShift(shift: int)
      requires width != 0
      modifies this
      ensures cy * width + cx == old(cy) * width + old(cx) + shift
      ensures cy == old(cy) + GoDiv(old(cx) + shift, width)
      ensures 0 <= old(cx) + shift && 0 < width ==> 0 <= cx < width
    {
      cx := cx + shift;
      var dy := GoDiv(cx, width);
      GoDivRem(cx, width);
      MulAdd(cy, dy, width);
      cx := cx - dy * width;
      cy := cy + dy;
    }

    /**
     * Writes the runes of `s` from the cursor: the cells and the cursor end
     * as `Run` says, and the count returned is always 0. Needs a non-zero
     * width (Go divides by it) and no rune stored outside the grid (Go
     * panics there).
     */
    method Write(s: seq<char>) returns (r: int)
      requires width != 0
      requires Run(width, false, runes[..], cy * width + cx, s).Some?
      modifies this, runes
      ensures var res := Run(width, false, old(runes[..]), old(cy * width + cx), s).value;
        runes[..] == res.cells && CPos() == CursorOf(width, res.addr)
      ensures r == 0
    {
      ghost var spec := Run(width, false, runes[..], cy * width + cx, s);
      var addr := cy * width + cx;
      var rest := s;
      while |rest| > 0
        invariant Run(width, false, runes[..], addr, rest) == spec
        decreases |rest|
      {
        var c := rest[0];
        if c == '\n' {
          addr := (GoDiv(addr, width) + 1) * width;
        } else {
          runes[addr] := c;
          addr := (addr + 1) % runes.Length;
        }
        rest := rest[1..];
      }
      cx := 0;
      cy := 0;
      CShift(addr);
      r := |rest|;
    }
  }

  /** The window of lcd_example after its first line, and after its second. */
  const FirstLine: seq<char> := Blank(43) + "Halo to ja!" + Blank(26)
  const SecondLine: seq<char> := Blank(43) + "Halo to ja!" + Blank(6) + "Ja też!" + Blank(13)

  /** A line of plain text and its `'\n'`, as `Fprintln` writes it. */
  lemma Line(width: int, cells: seq<char>, addr: nat, text: seq<char>)
    requires 0 < width && addr + |text| < |cells|
    requires forall i :: 0 <= i < |text| ==> !Control(false, text[i])
    ensures Run(width, false, cells, addr, text + "\n")
      == Some(Screen(cells[..addr] + text + cells[addr + |text|..], (GoDiv(addr + |text|, width) + 1) * width))
  {
    RunAppend(width, false, cells, addr, text, "\n");
    PlainText(width, false, cells, addr, text);
  }

  /** Cutting a blank grid gives blank grids. */
  lemma BlankCut(n: nat, k: nat)
    requires k <= n
    ensures Blank(n)[..k] == Blank(k) && Blank(n)[k..] == Blank(n - k)
  {
  }

  /** Text placed after a prefix `p` and before a suffix, cut inside the suffix. */
  lemma CutAfter(p: seq<char>, t: seq<char>, rest: seq<char>, k: nat)
    requires k <= |rest|
    ensures (p + t + rest)[..|p| + |t| + k] == p + t + rest[..k]
    ensures (p + t + rest)[|p| + |t| + k..] == rest[k..]
  {
  }

  /** "Halo to ja!" from column 3 of row 2 fills cells 43 to 53 and leaves the address at the start of row 3. */
  lemma ExampleFirst()
    ensures Run(20, false, Blank(80), 43, "Halo to ja!\n") == Some(Screen(FirstLine, 60))
    ensures CursorOf(20, 60) == (0, 3)
  {
    var text := "Halo to ja!";
    assert text + "\n" == "Halo to ja!\n";
    Line(20, Blank(80), 43, text);
    BlankCut(80, 43);
    BlankCut(80, 54);
  }

  /** "Ja też!" from the start of row 3 fills cells 60 to 66 and leaves the address just past the grid. */
  lemma ExampleSecond()
    ensures Run(20, false, FirstLine, 60, "Ja też!\n") == Some(Screen(SecondLine, 80))
    ensures CursorOf(20, 80) == (0, 4)
  {
    var text := "Ja też!";
    assert text + "\n" == "Ja też!\n";
    Line(20, FirstLine, 60, text);
    CutAfter(Blank(43), "Halo to ja!", Blank(26), 6);
    CutAfter(Blank(43), "Halo to ja!", Blank(26), 13);
    BlankCut(26, 6);
    BlankCut(26, 13);
    assert GoDiv(67, 20) == 3;
  }

  /**
   * The session of lcd_example: a 20x4 window, the cursor at column 3 of
   * row 2, then `Fprintln` of "Halo to ja!" and of "Ja też!". The first line
   * fills cells 43 to 53, the second cells 60 to 66, and the cursor ends at
   * `(0, 4)`, just below the grid.
   */
  method Example() returns (cells: seq<char>, x: int, y: int)
    ensures cells == SecondLine
    ensures (x, y) == (0, 4)
  {
    var w := new TextWindow(20, 4);
    w.SetCPos(3, 2);
    assert w.runes[..] == Blank(80) && w.cy * w.width + w.cx == 43;
    ExampleFirst();
    var first := "Halo to ja!\n";
    assert Run(w.width, false, w.runes[..], w.cy * w.width + w.cx, first) == Some(Screen(FirstLine, 60));
    var n := w.Write(first);
    assert w.runes[..] == FirstLine && w.cy * w.width + w.cx == 60;
    ExampleSecond();
    var second := "Ja też!\n";
    assert Run(w.width, false, w.runes[..], w.cy * w.width + w.cx, second) == Some(Screen(SecondLine, 80));
    n := w.Write(second);
    cells := w.runes[..];
    x, y := w.cx, w.cy;
  }
}
