/** The character-cell grid: `cell` (matrix.hh) and `matrix` (matrix.cc).

    A matrix holds a cell count, a pixel size and a character size per
    axis, and a row table `data` of `size_cells_y` rows, each an array of
    `size_cells_x` cells. Memory is not freed in Dafny; ghost counters keep
    track of how many row arrays were allocated, released by
    deallocate_data, or lost because deallocate_data never visited them. */
module CellGrid {
  import opened Ints

  /** One character cell: foreground, background and character code. */
  datatype Cell = Cell(fg: uint32, bg: uint32, character: uint32)

  /** The character code a default-constructed cell holds: 'A'. */
  const DefaultCharacter: uint32 := 'A' as uint32

  /** A default-constructed cell. The source leaves fg and bg
      uninitialised; they are 0 here and nothing below depends on them. */
  function DefaultCell(): (c: Cell)
  {
    Cell(0, 0, DefaultCharacter)
  }

  class Matrix {
    var sizeCellsX: uint32
    var sizeCellsY: uint32
    var sizePxX: real
    var sizePxY: real
    var charSizeX: real
    var charSizeY: real
    var data: array?<array?<Cell>>

    /** data points at a row table that has not been released yet. */
    ghost var live: bool
    /** Row arrays allocated so far. */
    ghost var allocatedRows: nat
    /** Row arrays deallocate_data has released. */
    ghost var releasedRows: nat
    /** Row arrays lost: their row table was released without them. */
    ghost var leakedRows: nat

    /** Every row ever allocated is released, leaked, or still in the live
        row table. */
    ghost predicate Accounted()
      reads this
    {
      (live ==> data != null) &&
      allocatedRows == releasedRows + leakedRows + (if live then data.Length else 0)
    }

    /** The object invariant between public operations: the row table, when
        there is one, is live and has size_cells_y rows of size_cells_x cells. */
    ghost predicate Valid()
      reads this, data
    {
      Accounted() &&
      (data != null ==> live) &&
      (data != null ==>
         data.Length == sizeCellsY as int &&
         forall y :: 0 <= y < data.Length ==> data[y] != null && data[y].Length == sizeCellsX as int)
    }

    /** matrix::matrix: every size 0 and no row table. */
    constructor ()
      ensures Valid()
      ensures sizeCellsX == 0 && sizeCellsY == 0
      ensures sizePxX == 0.0 && sizePxY == 0.0
      ensures charSizeX == 0.0 && charSizeY == 0.0
      ensures data == null
      ensures allocatedRows == 0 && releasedRows == 0 && leakedRows == 0
    {
      sizeCellsX, sizeCellsY := 0, 0;
      sizePxX, sizePxY := 0.0, 0.0;
      charSizeX, charSizeY := 0.0, 0.0;
      data := null;
      live := false;
      allocatedRows, releasedRows, leakedRows := 0, 0, 0;
    }

    /** matrix::deallocate_data: nothing without a row table; otherwise
        releases rows 0 .. size_cells_y - 1, reading the field as it is now,
        then the table. Rows of the table at or past size_cells_y are lost.
        A size_cells_y past the table's end would read outside it, so it is
        excluded; so is releasing a table twice. The (dangling) pointer is
        left in data. */
    method DeallocateData()
      requires Accounted()
      requires data != null ==> live && sizeCellsY as int <= data.Length
      modifies this`live, this`releasedRows, this`leakedRows
      ensures !live && Accounted()
      ensures old(data) == null ==> releasedRows == old(releasedRows) && leakedRows == old(leakedRows)
      ensures old(data) != null ==>
                releasedRows == old(releasedRows) + sizeCellsY as int &&
                leakedRows == old(leakedRows) + (data.Length - sizeCellsY as int)
    {
      if data == null {
        return;
      }
      var y := 0;
      while y < sizeCellsY as int
        invariant 0 <= y <= sizeCellsY as int
        invariant releasedRows == old(releasedRows) + y
        invariant leakedRows == old(leakedRows) && live
      {
        var row := data[y];  // delete [] data[y]
        releasedRows := releasedRows + 1;
        y := y + 1;
      }
      leakedRows := leakedRows + (data.Length - sizeCellsY as int);
      live := false;
    }

    /** matrix::~matrix: releases the rows and the table; from a valid
        state nothing is lost. */
    method Destroy()
      requires Valid()
      modifies this`live, this`releasedRows, this`leakedRows
      ensures !live && Accounted() && leakedRows == old(leakedRows)
      ensures releasedRows == old(releasedRows) + (if data == null then 0 else data.Length)
    {
      DeallocateData();
    }

    /** matrix::tell_character_sizes: stores the character size, changes
        nothing else (the pixel size is recomputed only by set_size). */
    method TellCharacterSizes(newCharSizeX: real, newCharSizeY: real)
      requires Valid()
      modifies this`charSizeX, this`charSizeY
      ensures Valid()
      ensures charSizeX == newCharSizeX && charSizeY == newCharSizeY
    {
      charSizeX := newCharSizeX;
      charSizeY := newCharSizeY;
    }

    /** The allocation half of set_size: a fresh table of size_cells_y
        fresh, distinct rows of size_cells_x default cells. */
    method AllocateData()
      requires Accounted() && !live
      modifies this`data, this`live, this`allocatedRows
      ensures Valid() && fresh(data) && live
      ensures allocatedRows == old(allocatedRows) + sizeCellsY as int
      ensures forall y :: 0 <= y < data.Length ==>
                data[y] != null && fresh(data[y]) &&
                forall x :: 0 <= x < data[y].Length ==> data[y][x] == DefaultCell()
      ensures forall y, y' :: 0 <= y < y' < data.Length ==> data[y] != data[y']
    {
      data := new array?<Cell>[sizeCellsY];
      var table := data;
      live := true;
      allocatedRows := allocatedRows + sizeCellsY as int;
      var y := 0;
      while y < sizeCellsY as int
        modifies table
        invariant 0 <= y <= sizeCellsY as int
        invariant forall k :: 0 <= k < y ==>
                    table[k] != null && fresh(table[k]) && table[k].Length == sizeCellsX as int &&
                    forall x :: 0 <= x < table[k].Length ==> table[k][x] == DefaultCell()
        invariant forall k, k' :: 0 <= k < k' < y ==> table[k] != table[k']
      {
        table[y] := new Cell[sizeCellsX](_ => DefaultCell());
        y := y + 1;
      }
    }

    /** matrix::set_size, as written: stores the cell counts and the pixel
        sizes, then calls deallocate_data, which reads the NEW size_cells_y.
        Shrinking therefore loses the old rows past the new count; growing
        would read past the old table, which is excluded here. */
    method SetSize(newSizeCellsX: uint32, newSizeCellsY: uint32)
      requires Valid()
      requires data != null ==> newSizeCellsY as int <= data.Length
      modifies this
      ensures Valid() && fresh(data)
      ensures sizeCellsX == newSizeCellsX && sizeCellsY == newSizeCellsY
      ensures sizePxX == newSizeCellsX as real * charSizeX
      ensures sizePxY == newSizeCellsY as real * charSizeY
      ensures charSizeX == old(charSizeX) && charSizeY == old(charSizeY)
      ensures forall y :: 0 <= y < data.Length ==>
                data[y] != null && fresh(data[y]) &&
                forall x :: 0 <= x < data[y].Length ==> data[y][x].character == DefaultCharacter
      ensures forall y, y' :: 0 <= y < y' < data.Length ==> data[y] != data[y']
      ensures allocatedRows == old(allocatedRows) + newSizeCellsY as int
      ensures old(data) == null ==> releasedRows == old(releasedRows) && leakedRows == old(leakedRows)
      ensures old(data) != null ==>
                releasedRows == old(releasedRows) + newSizeCellsY as int &&
                leakedRows == old(leakedRows) + (old(data.Length) - newSizeCellsY as int)
    {
      sizeCellsX := newSizeCellsX;
      sizeCellsY := newSizeCellsY;

      sizePxX := sizeCellsX as real * charSizeX;
      sizePxY := sizeCellsY as real * charSizeY;

      DeallocateData();
      AllocateData();
    }

    /** set_size with the old rows released before the counts are
        overwritten: every old row is released, none is lost, and any new
        size is accepted. */
    method SetSizeCorrected(newSizeCellsX: uint32, newSizeCellsY: uint32)
      requires Valid()
      modifies this
      ensures Valid() && fresh(data)
      ensures sizeCellsX == newSizeCellsX && sizeCellsY == newSizeCellsY
      ensures sizePxX == newSizeCellsX as real * charSizeX
      ensures sizePxY == newSizeCellsY as real * charSizeY
      ensures charSizeX == old(charSizeX) && charSizeY == old(charSizeY)
      ensures forall y :: 0 <= y < data.Length ==>
                data[y] != null && fresh(data[y]) &&
                forall x :: 0 <= x < data[y].Length ==> data[y][x].character == DefaultCharacter
      ensures forall y, y' :: 0 <= y < y' < data.Length ==> data[y] != data[y']
      ensures allocatedRows == old(allocatedRows) + newSizeCellsY as int
      ensures releasedRows == old(releasedRows) + (if old(data) == null then 0 else old(data.Length))
      ensures leakedRows == old(leakedRows)
    {
      DeallocateData();

      sizeCellsX := newSizeCellsX;
      sizeCellsY := newSizeCellsY;

      sizePxX := sizeCellsX as real * charSizeX;
      sizePxY := sizeCellsY as real * charSizeY;

      AllocateData();
    }
  }

  /** Shrinking a grid from two rows to one with set_size as written loses
      the second row of the first table. */
  method ShrinkLeaksRow() returns (m: Matrix)
    ensures m.Valid() && m.sizeCellsX == 1 && m.sizeCellsY == 1
    ensures m.allocatedRows == 3 && m.releasedRows == 1 && m.leakedRows == 1
  {
    m := new Matrix();
    m.SetSize(1, 2);
    m.SetSize(1, 1);
  }

  /** The same resizes with the corrected set_size lose nothing. */
  method ShrinkCorrectedReleasesAll() returns (m: Matrix)
    ensures m.Valid() && m.sizeCellsX == 1 && m.sizeCellsY == 1
    ensures m.allocatedRows == 3 && m.releasedRows == 2 && m.leakedRows == 0
  {
    m := new Matrix();
    m.SetSizeCorrected(1, 2);
    m.SetSizeCorrected(1, 1);
  }
}
