/**
 `CombineStreams` (streamHandler.py lines 15-38): the mosaic the relay sends
 to a client. It walks `columns` bands of `rows` cells each, filling cell
 after cell with the next ingestor's `read()` and, once the ingestors run
 out, with a blank image; each band is an `hstack` of its cells, the mosaic
 a `vstack` of its bands, rescaled at the end to `output_size`.

 Pixels are not modelled: a cell records which stream it shows (and what
 that stream's picture is), or that it is blank; bands and mosaics record
 their cells and their (height, width). The white border `cv2.rectangle`
 draws on every cell changes pixels only.
 */
module Compositor {
  import opened Common
  import opened Images
  import opened Ingestion

  /** What one cell of the mosaic shows. */
  datatype Cell = Stream(index: nat, content: Content) | Blank

  /** A horizontal strip of cells (`combinedRow`): left to right, with its shape. */
  datatype Band = Band(cells: seq<Cell>, height: nat, width: nat)

  /** A stack of bands (`combinedImg`): top to bottom, with its shape. */
  datatype Picture = Picture(bands: seq<seq<Cell>>, height: nat, width: nat)

  /** What `read()` returns for each ingestor, in order: its image, or None
      where `read()` raises. */
  function Snapshot(streams: seq<Ingestor>): (frames: seq<Option<Image>>)
    reads streams
    ensures |frames| == |streams|
  {
    if streams == [] then [] else [streams[0].Read()] + Snapshot(streams[1..])
  }

  lemma {:induction false} SnapshotAt(streams: seq<Ingestor>, k: nat)
    requires k < |streams|
    ensures Snapshot(streams)[k] == streams[k].Read()
  {
    if k > 0 {
      SnapshotAt(streams[1..], k - 1);
    }
  }

  /** `hstack((combinedRow, stream))`: numpy raises unless the heights agree. */
  function HStack(row: Band, tile: Band): Option<Band>
  {
    if row.height == tile.height then Some(Band(row.cells + tile.cells, row.height, row.width + tile.width)) else None
  }

  /** `vstack((combinedImg, combinedRow))`: numpy raises unless the widths agree. */
  function VStack(img: Picture, row: Band): Option<Picture>
  {
    if img.width == row.width then Some(Picture(img.bands + [row.cells], img.height + row.height, img.width)) else None
  }

  // ---------------------------------------------------------------------------
  // The layout: cell r of band c is filled from stream number c * rows + r.

  /** Filling the cell `current_stream == k` does not raise: the ingestors have
      run out, or ingestor k's `read()` returns an image. */
  predicate Readable(frames: seq<Option<Image>>, k: nat)
  {
    k >= |frames| || frames[k].Some?
  }

  /** The cell `current_stream == k` fills: stream k, or blank once the ingestors
      run out (a cell whose `read()` raises is never stacked). */
  function CellAt(frames: seq<Option<Image>>, k: nat): Cell
  {
    if k < |frames| && frames[k].Some? then Stream(k, frames[k].value.content) else Blank
  }

  /** The (height, width) of that cell: the stream's image, or the
      output_size[0] by output_size[1] blank image. */
  function TileShape(outputSize: (nat, nat), frames: seq<Option<Image>>, k: nat): (nat, nat)
  {
    if k < |frames| && frames[k].Some? then (frames[k].value.height, frames[k].value.width) else outputSize
  }

  /** The stream number of the first cell of band c, `current_stream` when the
      band begins: c * rows (BandStartIsProduct). */
  function BandStart(c: nat, rows: nat): nat
  {
    if c == 0 then 0 else BandStart(c - 1, rows) + rows
  }

  lemma {:induction false} BandStartIsProduct(c: nat, rows: nat)
    ensures BandStart(c, rows) == c * rows
  {
    if c > 0 {
      BandStartIsProduct(c - 1, rows);
    }
  }

  /** Band c ends where band c + 1 begins, at or before the end of the last band. */
  lemma {:induction false} BandsInOrder(c: nat, columns: nat, rows: nat)
    requires c < columns
    ensures BandStart(c, rows) + rows <= BandStart(columns, rows)
    decreases columns
  {
    if c + 1 < columns {
      BandsInOrder(c, columns - 1, rows);
    }
  }

  /** The cells of the first `columns` bands of `rows` cells, top to bottom (GridLayout). */
  function Grid(frames: seq<Option<Image>>, columns: nat, rows: nat): (g: seq<seq<Cell>>)
    ensures |g| == columns
  {
    if columns == 0 then [] else Grid(frames, columns - 1, rows) + [BandCells(frames, BandStart(columns - 1, rows), rows)]
  }

  /** The n cells, left to right, of the band whose first cell is stream number `start`. */
  function BandCells(frames: seq<Option<Image>>, start: nat, n: nat): (cells: seq<Cell>)
    ensures |cells| == n
  {
    if n == 0 then [] else BandCells(frames, start, n - 1) + [CellAt(frames, start + n - 1)]
  }

  /** The width of those n cells laid side by side. */
  function BandWidth(outputSize: (nat, nat), frames: seq<Option<Image>>, start: nat, n: nat): nat
  {
    if n == 0 then 0 else BandWidth(outputSize, frames, start, n - 1) + TileShape(outputSize, frames, start + n - 1).1
  }

  /** The height of the first n bands stacked, each as tall as its first cell. */
  function StackHeight(outputSize: (nat, nat), frames: seq<Option<Image>>, rows: nat, n: nat): nat
  {
    if n == 0 then 0 else StackHeight(outputSize, frames, rows, n - 1) + TileShape(outputSize, frames, BandStart(n - 1, rows)).0
  }

  /** Every one of those n cells is filled without raising and is as tall as the first. */
  predicate BandFits(outputSize: (nat, nat), frames: seq<Option<Image>>, start: nat, n: nat)
  {
    forall k :: start <= k < start + n ==>
      Readable(frames, k) && TileShape(outputSize, frames, k).0 == TileShape(outputSize, frames, start).0
  }

  /** Band c fits (its cells equally tall) and is as wide as the first band. */
  predicate BandOk(outputSize: (nat, nat), frames: seq<Option<Image>>, rows: nat, c: nat)
  {
    BandFits(outputSize, frames, BandStart(c, rows), rows)
    && BandWidth(outputSize, frames, BandStart(c, rows), rows) == BandWidth(outputSize, frames, 0, rows)
  }

  /** The first n bands are all BandOk. */
  predicate BandsFit(outputSize: (nat, nat), frames: seq<Option<Image>>, rows: nat, n: nat)
  {
    n == 0 || (BandsFit(outputSize, frames, rows, n - 1) && BandOk(outputSize, frames, rows, n - 1))
  }

  lemma {:induction false} BandsFitPrefix(outputSize: (nat, nat), frames: seq<Option<Image>>, rows: nat, n: nat, m: nat)
    requires n <= m
    ensures BandsFit(outputSize, frames, rows, m) ==> BandsFit(outputSize, frames, rows, n)
    decreases m
  {
    if n < m {
      BandsFitPrefix(outputSize, frames, rows, n, m - 1);
    }
  }

  /** The stacking succeeds and produces an image: at least one band of at
      least one cell, every cell filled without raising, the cells of each
      band equally tall and all bands equally wide (BandsFitMeans). */
  predicate Fits(outputSize: (nat, nat), frames: seq<Option<Image>>, columns: int, rows: int)
  {
    columns > 0 && rows > 0 && BandsFit(outputSize, frames, rows, columns)
  }

  lemma {:induction false} BandsFitMeans(outputSize: (nat, nat), frames: seq<Option<Image>>, rows: nat, n: nat)
    ensures BandsFit(outputSize, frames, rows, n) <==> forall c :: 0 <= c < n ==> BandOk(outputSize, frames, rows, c)
  {
    if n > 0 {
      BandsFitMeans(outputSize, frames, rows, n - 1);
      if forall c :: 0 <= c < n ==> BandOk(outputSize, frames, rows, c) {
        assert BandOk(outputSize, frames, rows, n - 1);
      }
    }
  }

  function Min(a: nat, b: nat): nat
  {
    if a < b then a else b
  }

  /** The final `cv2.resize(combinedImg, output_size)` succeeds: the stacked
      image is not empty, and neither component of the target size is zero. */
  predicate Resizable(outputSize: (nat, nat), height: nat, width: nat)
  {
    height > 0 && width > 0 && outputSize.0 > 0 && outputSize.1 > 0
  }

  /** What `CombineStreams` returns, as a value: the stacked cells rescaled to
      output_size[1] rows by output_size[0] columns (cv2's size is (width,
      height)), or None when it raises. */
  function Mosaic(outputSize: (nat, nat), frames: seq<Option<Image>>, columns: int, rows: int): Option<Picture>
  {
    if Fits(outputSize, frames, columns, rows)
       && Resizable(outputSize, StackHeight(outputSize, frames, rows, columns), BandWidth(outputSize, frames, 0, rows))
    then Some(Picture(Grid(frames, columns, rows), outputSize.1, outputSize.0))
    else None
  }

  /**
   The image for the cell `current_stream` fills (line 25): the blank image
   once the ingestors run out, otherwise what `read()` returns for ingestor
   number `current_stream`; None when that `read()` raises.
   */
  method FillCell(outputSize: (nat, nat), currentStream: nat, streams: seq<Ingestor>, ghost frames: seq<Option<Image>>)
    returns (tile: Option<Band>)
    requires frames == Snapshot(streams)
    ensures tile.Some? <==> Readable(frames, currentStream)
    ensures tile.Some? ==> tile.value == Band([CellAt(frames, currentStream)], TileShape(outputSize, frames, currentStream).0,
                                              TileShape(outputSize, frames, currentStream).1)
  {
    if currentStream > |streams| - 1 {
      tile := Some(Band([Blank], outputSize.0, outputSize.1));
    } else {
      var stream := streams[currentStream].Read();
      SnapshotAt(streams, currentStream);
      if stream.None? {
        return None;
      }
      tile := Some(Band([Stream(currentStream, stream.value.content)], stream.value.height, stream.value.width));
    }
  }

  /**
   The inner `for row_indx in range(rows)` loop (lines 23-31) of a band whose
   first cell is `current_stream == start`: the band of its cells, or `ok`
   false when an `hstack` raises.
   */
  method StackBand(outputSize: (nat, nat), rows: nat, start: nat, streams: seq<Ingestor>, ghost frames: seq<Option<Image>>)
    returns (combinedRow: Option<Band>, ok: bool)
    requires frames == Snapshot(streams)
    ensures (ok <==> BandFits(outputSize, frames, start, rows))
      && (ok ==> combinedRow == if rows == 0 then None else Some(BandAt(outputSize, frames, start, rows)))
  {
    var currentStream := start;
    combinedRow := None;
    var r := 0;
    while r < rows
      invariant 0 <= r <= rows && currentStream == start + r
      invariant BandFits(outputSize, frames, start, r)
      invariant r == 0 ==> combinedRow.None?
      invariant r > 0 ==> combinedRow == Some(Band(BandCells(frames, start, r), TileShape(outputSize, frames, start).0,
                                                   BandWidth(outputSize, frames, start, r)))
    {
      var tile := FillCell(outputSize, currentStream, streams, frames);
      if tile.None? {
        return None, false;
      }
      if combinedRow.None? {
        assert BandCells(frames, start, 1) == BandCells(frames, start, 0) + [CellAt(frames, start)] == [CellAt(frames, start)];
        combinedRow := tile;
      } else {
        combinedRow := HStack(combinedRow.value, tile.value);
        if combinedRow.None? {
          assert TileShape(outputSize, frames, currentStream).0 != TileShape(outputSize, frames, start).0;
          return None, false;
        }
      }
      currentStream := currentStream + 1;
      r := r + 1;
    }
    return combinedRow, true;
  }

  /** `combinedImg` after the first c bands: None before any band of at least
      one cell, then the stacked bands. */
  function Stacked(outputSize: (nat, nat), frames: seq<Option<Image>>, rows: nat, c: nat): Option<Picture>
  {
    if c == 0 || rows == 0 then None
    else Some(Picture(Grid(frames, c, rows), StackHeight(outputSize, frames, rows, c), BandWidth(outputSize, frames, 0, rows)))
  }

  /** The band of `rows` cells starting at stream number `start`, as `hstack` builds it. */
  function BandAt(outputSize: (nat, nat), frames: seq<Option<Image>>, start: nat, rows: nat): Band
  {
    Band(BandCells(frames, start, rows), TileShape(outputSize, frames, start).0, BandWidth(outputSize, frames, start, rows))
  }

  /** What stacking band c onto the first c bands does: the first band becomes
      the image, a later one is `vstack`ed on, which succeeds exactly when it
      is as wide as the first. */
  lemma StackStep(outputSize: (nat, nat), frames: seq<Option<Image>>, rows: nat, c: nat)
    requires rows > 0
    ensures var band := BandAt(outputSize, frames, BandStart(c, rows), rows);
      && (c == 0 ==> Stacked(outputSize, frames, rows, 1) == Some(Picture([band.cells], band.height, band.width)))
      && (c > 0 ==> var v := VStack(Stacked(outputSize, frames, rows, c).value, band);
           (v.Some? <==> band.width == BandWidth(outputSize, frames, 0, rows))
           && (v.Some? ==> v == Stacked(outputSize, frames, rows, c + 1)))
    ensures BandsFit(outputSize, frames, rows, c + 1)
        <==> BandsFit(outputSize, frames, rows, c) && BandOk(outputSize, frames, rows, c)
    ensures BandStart(c + 1, rows) == BandStart(c, rows) + rows
  {
    if c == 0 {
      assert BandStart(0, rows) == 0;
      assert Grid(frames, 1, rows) == [BandCells(frames, 0, rows)];
      assert StackHeight(outputSize, frames, rows, 1) == TileShape(outputSize, frames, 0).0;
    }
  }

  /** After c bands `combine_streams` has not raised and holds their stack. */
  ghost predicate Stacking(outputSize: (nat, nat), frames: seq<Option<Image>>, bands: nat, c: nat, img: Option<Picture>)
  {
    BandsFit(outputSize, frames, bands, c) && img == Stacked(outputSize, frames, bands, c)
  }

  /** Adding band c (already `hstack`ed into `row`, `fits` when that did not
      raise) to the stack of the first c: the first band becomes the image, a
      later one is `vstack`ed on, and the result is the stack of c + 1 bands
      exactly when they still fit; a band that raises means the whole grid of
      `columns` bands does not fit. */
  lemma StackAdvance(outputSize: (nat, nat), frames: seq<Option<Image>>, bands: nat, c: nat, columns: nat,
                     img: Option<Picture>, row: Option<Band>, fits: bool)
    requires c < columns
    requires Stacking(outputSize, frames, bands, c, img)
    requires fits <==> BandFits(outputSize, frames, BandStart(c, bands), bands)
    requires fits ==> row == if bands == 0 then None else Some(BandAt(outputSize, frames, BandStart(c, bands), bands))
    ensures BandStart(c + 1, bands) == BandStart(c, bands) + bands
    ensures !fits ==> !BandsFit(outputSize, frames, bands, columns)
    ensures fits && img.None? ==>
      Stacking(outputSize, frames, bands, c + 1,
               if row.None? then None else Some(Picture([row.value.cells], row.value.height, row.value.width)))
    ensures fits && img.Some? ==> row.Some?
    ensures fits && img.Some? ==> var v := VStack(img.value, row.value);
      (v.Some? ==> Stacking(outputSize, frames, bands, c + 1, v))
      && (v.None? ==> !BandsFit(outputSize, frames, bands, columns))
  {
    if bands > 0 {
      StackStep(outputSize, frames, bands, c);
    }
    BandsFitPrefix(outputSize, frames, bands, c + 1, columns);
  }

  /**
   The two loops of `combine_streams` (lines 21-35): band after band is
   `hstack`ed and `vstack`ed onto `combinedImg`. `ok` is false when one of
   them raises; otherwise `combinedImg` is the stack of all bands, None when
   there is no band or no cell.
   */
  method StackBands(outputSize: (nat, nat), bands: nat, columns: int, streams: seq<Ingestor>, ghost frames: seq<Option<Image>>)
    returns (combinedImg: Option<Picture>, ok: bool)
    requires frames == Snapshot(streams)
    ensures ok <==> columns <= 0 || BandsFit(outputSize, frames, bands, columns)
    ensures ok ==> combinedImg == Stacked(outputSize, frames, bands, if columns > 0 then columns else 0)
  {
    combinedImg := None;
    var currentStream := 0;
    var c := 0;
    while c < columns
      invariant 0 <= c && (c == 0 || c <= columns) && currentStream == BandStart(c, bands)
      invariant Stacking(outputSize, frames, bands, c, combinedImg)
    {
      var combinedRow, fits := StackBand(outputSize, bands, currentStream, streams, frames);
      StackAdvance(outputSize, frames, bands, c, columns as nat, combinedImg, combinedRow, fits);
      if !fits {
        return combinedImg, false;
      }
      if combinedImg.None? {
        combinedImg := if combinedRow.None? then None
          else Some(Picture([combinedRow.value.cells], combinedRow.value.height, combinedRow.value.width));
      } else {
        combinedImg := VStack(combinedImg.value, combinedRow.value);
        if combinedImg.None? {
          return combinedImg, false;
        }
      }
      currentStream := currentStream + bands;
      c := c + 1;
    }
    ok := true;
  }

  /**
   `CombineStreams(output_size, columns, rows, streams)`: None when it raises
   (a `read()` raises; an `hstack`/`vstack` of mismatched shapes; no band or
   no cell, so `cv2.resize(None, ...)`; or the final resize of an empty image
   or to a size with a zero component). `stacked` is the mosaic before the
   final resize.
   */
  method CombineStreams(outputSize: (nat, nat), columns: int, rows: int, streams: seq<Ingestor>)
    returns (result: Option<Picture>, ghost stacked: Picture)
    ensures result == Mosaic(outputSize, Snapshot(streams), columns, rows)
    ensures var frames := Snapshot(streams);
      result.Some? ==>
        stacked == Picture(Grid(frames, columns, rows), StackHeight(outputSize, frames, rows, columns),
                           BandWidth(outputSize, frames, 0, rows))
  {
    ghost var frames := Snapshot(streams);
    var bands: nat := if rows > 0 then rows else 0;
    stacked := Picture([], 0, 0);
    var combinedImg, ok := StackBands(outputSize, bands, columns, streams, frames);
    if !ok || combinedImg.None? {
      return None, stacked;
    }
    if !Resizable(outputSize, combinedImg.value.height, combinedImg.value.width) {
      return None, stacked;
    }
    stacked := combinedImg.value;
    result := Some(Picture(combinedImg.value.bands, outputSize.1, outputSize.0));
  }

  // ---------------------------------------------------------------------------
  // Grid fill: which stream every cell shows.

  lemma {:induction false} BandCellsAt(frames: seq<Option<Image>>, start: nat, n: nat, r: nat)
    requires r < n
    ensures BandCells(frames, start, n)[r] == CellAt(frames, start + r)
  {
    if r < n - 1 {
      BandCellsAt(frames, start, n - 1, r);
    }
  }

  /** Cell r of band c shows stream number c * rows + r when there is one,
      and is blank otherwise; every band has `rows` cells. */
  lemma {:induction false} GridLayout(frames: seq<Option<Image>>, columns: nat, rows: nat, c: nat, r: nat)
    requires c < columns && r < rows
    ensures |Grid(frames, columns, rows)[c]| == rows
    ensures Grid(frames, columns, rows)[c][r] == CellAt(frames, c * rows + r)
    ensures c * rows + r < |frames| && frames[c * rows + r].Some? ==>
      Grid(frames, columns, rows)[c][r] == Stream(c * rows + r, frames[c * rows + r].value.content)
    ensures c * rows + r >= |frames| ==> Grid(frames, columns, rows)[c][r] == Blank
    decreases columns
  {
    if c < columns - 1 {
      GridLayout(frames, columns - 1, rows, c, r);
    } else {
      BandCellsAt(frames, BandStart(c, rows), rows, r);
      BandStartIsProduct(c, rows);
    }
  }

  /** Only the first columns * rows streams are shown: a cell that shows a
      stream shows one numbered below both len(streams) and columns * rows. */
  lemma ShownStreamsInRange(frames: seq<Option<Image>>, columns: nat, rows: nat, c: nat, r: nat)
    requires c < columns && r < rows
    ensures |Grid(frames, columns, rows)[c]| == rows
    ensures Grid(frames, columns, rows)[c][r].Stream? ==>
      Grid(frames, columns, rows)[c][r].index < |frames| && Grid(frames, columns, rows)[c][r].index < columns * rows
  {
    GridLayout(frames, columns, rows, c, r);
    BandStartIsProduct(c, rows);
    BandsInOrder(c, columns, rows);
    BandStartIsProduct(columns, rows);
  }

  lemma {:induction false} MulMonotone(a: nat, b: nat, m: nat)
    requires a <= b
    ensures a * m <= b * m
    decreases b - a
  {
    if a < b {
      MulMonotone(a, b - 1, m);
      assert b * m == (b - 1) * m + m;
    }
  }

  /** Stream number k < columns * rows lies in band k / rows, at position k % rows. */
  lemma CellOfStream(k: nat, columns: nat, rows: nat)
    requires k < columns * rows
    ensures rows > 0 && k / rows < columns && k % rows < rows
    ensures k == (k / rows) * rows + k % rows
  {
    if rows > 0 && k / rows >= columns {
      MulMonotone(columns, k / rows, rows);
    }
  }

  /** Every stream numbered below columns * rows is shown, in band k / rows at
      position k % rows: `current_stream` goes up by one per cell. */
  lemma StreamPlacement(frames: seq<Option<Image>>, columns: nat, rows: nat, k: nat)
    requires k < columns * rows
    ensures rows > 0 && k / rows < columns && |Grid(frames, columns, rows)[k / rows]| == rows
    ensures Grid(frames, columns, rows)[k / rows][k % rows] == CellAt(frames, k)
  {
    CellOfStream(k, columns, rows);
    GridLayout(frames, columns, rows, k / rows, k % rows);
  }

  // ---------------------------------------------------------------------------
  // Streams beyond the first columns * rows do not affect the composite.

  /** Two lists of frames fill the cells numbered below n alike. */
  predicate AgreeBelow(outputSize: (nat, nat), f: seq<Option<Image>>, g: seq<Option<Image>>, n: nat)
  {
    forall k :: 0 <= k < n ==>
      CellAt(f, k) == CellAt(g, k) && TileShape(outputSize, f, k) == TileShape(outputSize, g, k)
      && Readable(f, k) == Readable(g, k)
  }

  lemma {:induction false} BandAgrees(outputSize: (nat, nat), f: seq<Option<Image>>, g: seq<Option<Image>>, bound: nat, start: nat, n: nat)
    requires AgreeBelow(outputSize, f, g, bound) && start + n <= bound
    ensures BandCells(f, start, n) == BandCells(g, start, n)
    ensures BandWidth(outputSize, f, start, n) == BandWidth(outputSize, g, start, n)
    ensures BandFits(outputSize, f, start, n) == BandFits(outputSize, g, start, n)
  {
    if n > 0 {
      BandAgrees(outputSize, f, g, bound, start, n - 1);
      assert CellAt(f, start + n - 1) == CellAt(g, start + n - 1);
      assert Readable(f, start + n - 1) == Readable(g, start + n - 1);
      assert TileShape(outputSize, f, start) == TileShape(outputSize, g, start);
    }
  }

  lemma {:induction false} StackAgrees(outputSize: (nat, nat), f: seq<Option<Image>>, g: seq<Option<Image>>, rows: nat, c: nat)
    requires rows > 0 && AgreeBelow(outputSize, f, g, BandStart(c, rows))
    ensures Grid(f, c, rows) == Grid(g, c, rows)
    ensures StackHeight(outputSize, f, rows, c) == StackHeight(outputSize, g, rows, c)
    ensures BandsFit(outputSize, f, rows, c) == BandsFit(outputSize, g, rows, c)
  {
    if c > 0 {
      var start := BandStart(c - 1, rows);
      assert AgreeBelow(outputSize, f, g, start);
      StackAgrees(outputSize, f, g, rows, c - 1);
      BandAgrees(outputSize, f, g, BandStart(c, rows), start, rows);
      BandsInOrder(0, c, rows);
      BandAgrees(outputSize, f, g, BandStart(c, rows), 0, rows);
      assert TileShape(outputSize, f, start) == TileShape(outputSize, g, start);
    }
  }

  /** The composite of `frames` is that of its first columns * rows entries:
      no cell shows a later stream, and dropping the later streams changes
      neither whether the stacking succeeds nor what it stacks. */
  lemma OnlyShownStreamsMatter(outputSize: (nat, nat), frames: seq<Option<Image>>, columns: int, rows: int)
    ensures columns > 0 && rows > 0 ==>
      var used := frames[..Min(|frames|, columns * rows)];
      && (Fits(outputSize, frames, columns, rows) <==> Fits(outputSize, used, columns, rows))
      && Grid(frames, columns, rows) == Grid(used, columns, rows)
      && StackHeight(outputSize, frames, rows, columns) == StackHeight(outputSize, used, rows, columns)
      && BandWidth(outputSize, frames, 0, rows) == BandWidth(outputSize, used, 0, rows)
      && Mosaic(outputSize, frames, columns, rows) == Mosaic(outputSize, used, columns, rows)
  {
    if columns > 0 && rows > 0 {
      var used := frames[..Min(|frames|, columns * rows)];
      BandStartIsProduct(columns, rows);
      assert AgreeBelow(outputSize, frames, used, BandStart(columns, rows));
      StackAgrees(outputSize, frames, used, rows, columns);
      BandsInOrder(0, columns, rows);
      BandAgrees(outputSize, frames, used, BandStart(columns, rows), 0, rows);
    }
  }

  // ---------------------------------------------------------------------------
  // When every `read()` returns an image of the output size, as the blank
  // image is, the stacking never fails for a positive grid.

  /** Every `read()` returned an image of output_size[0] by output_size[1]. */
  predicate Uniform(outputSize: (nat, nat), frames: seq<Option<Image>>)
  {
    forall k :: 0 <= k < |frames| ==>
      frames[k].Some? && frames[k].value.height == outputSize.0 && frames[k].value.width == outputSize.1
  }

  lemma {:induction false} UniformBand(outputSize: (nat, nat), frames: seq<Option<Image>>, start: nat, n: nat)
    requires Uniform(outputSize, frames)
    ensures BandFits(outputSize, frames, start, n)
    ensures BandWidth(outputSize, frames, start, n) == n * outputSize.1
  {
    if n > 0 {
      UniformBand(outputSize, frames, start, n - 1);
      assert TileShape(outputSize, frames, start + n - 1) == outputSize && Readable(frames, start + n - 1);
      assert TileShape(outputSize, frames, start) == outputSize;
      assert n * outputSize.1 == (n - 1) * outputSize.1 + outputSize.1;
    }
  }

  lemma {:induction false} UniformStack(outputSize: (nat, nat), frames: seq<Option<Image>>, rows: nat, c: nat)
    requires Uniform(outputSize, frames)
    ensures BandsFit(outputSize, frames, rows, c)
    ensures StackHeight(outputSize, frames, rows, c) == c * outputSize.0
  {
    if c > 0 {
      UniformStack(outputSize, frames, rows, c - 1);
      UniformBand(outputSize, frames, BandStart(c - 1, rows), rows);
      UniformBand(outputSize, frames, 0, rows);
      assert TileShape(outputSize, frames, BandStart(c - 1, rows)) == outputSize;
      assert c * outputSize.0 == (c - 1) * outputSize.0 + outputSize.0;
    }
  }

  /** When every `read()` returns an image of the output size, stacking
      succeeds exactly for a positive grid, and the composite is `columns`
      cells tall and `rows` cells wide before the final resize; the mosaic
      exists when the output size has no zero component as well. */
  lemma UniformComposite(outputSize: (nat, nat), frames: seq<Option<Image>>, columns: int, rows: int)
    requires Uniform(outputSize, frames)
    ensures Fits(outputSize, frames, columns, rows) <==> columns > 0 && rows > 0
    ensures columns > 0 && rows > 0 ==>
      StackHeight(outputSize, frames, rows, columns) == columns * outputSize.0
      && BandWidth(outputSize, frames, 0, rows) == rows * outputSize.1
    ensures Mosaic(outputSize, frames, columns, rows).Some?
        <==> columns > 0 && rows > 0 && outputSize.0 > 0 && outputSize.1 > 0
  {
    if columns > 0 && rows > 0 {
      UniformStack(outputSize, frames, rows, columns);
      UniformBand(outputSize, frames, 0, rows);
      PositiveProduct(columns, outputSize.0);
      PositiveProduct(rows, outputSize.1);
    }
  }

  lemma PositiveProduct(a: nat, b: nat)
    requires a > 0
    ensures a * b > 0 <==> b > 0
  {
    if b > 0 {
      MulMonotone(1, a, b);
    }
  }

  /** Ingestors built with the relay's output size whose current images have
      that size give it frames of that size, so their composite exists
      exactly for a positive grid and a target size with no zero component. */
  lemma IngestorsCompose(outputSize: (nat, nat), streams: seq<Ingestor>, columns: int, rows: int)
    requires forall i :: 0 <= i < |streams| ==>
      streams[i].outputSize == outputSize
      && streams[i].imgToShow.height == outputSize.0 && streams[i].imgToShow.width == outputSize.1
    ensures Uniform(outputSize, Snapshot(streams))
    ensures Mosaic(outputSize, Snapshot(streams), columns, rows).Some?
        <==> columns > 0 && rows > 0 && outputSize.0 > 0 && outputSize.1 > 0
  {
    var frames := Snapshot(streams);
    forall k | 0 <= k < |frames|
      ensures frames[k].Some? && frames[k].value.height == outputSize.0 && frames[k].value.width == outputSize.1
    {
      SnapshotAt(streams, k);
    }
    UniformComposite(outputSize, frames, columns, rows);
  }

  /** A shown ingestor whose current image has another shape than its own
      output size makes its `read()` raise, and with it the whole composite. */
  lemma OffSizeFrameFails(outputSize: (nat, nat), streams: seq<Ingestor>, columns: int, rows: int, k: nat)
    requires k < |streams| && columns > 0 && rows > 0 && k < columns * rows
    requires streams[k].imgToShow.height != streams[k].outputSize.0 || streams[k].imgToShow.width != streams[k].outputSize.1
    ensures Mosaic(outputSize, Snapshot(streams), columns, rows) == None
  {
    SnapshotAt(streams, k);
    UnreadableFails(outputSize, Snapshot(streams), columns, rows, k);
  }

  /** A shown cell whose `read()` raises makes the whole composite fail. */
  lemma UnreadableFails(outputSize: (nat, nat), frames: seq<Option<Image>>, columns: nat, rows: nat, k: nat)
    requires k < columns * rows && !Readable(frames, k)
    ensures Mosaic(outputSize, frames, columns, rows) == None
  {
    CellOfStream(k, columns, rows);
    var c := k / rows;
    BandStartIsProduct(c, rows);
    UnreadableBand(outputSize, frames, BandStart(c, rows), rows, k);
    assert !BandOk(outputSize, frames, rows, c);
    BandsFitMeans(outputSize, frames, rows, columns);
  }

  lemma UnreadableBand(outputSize: (nat, nat), frames: seq<Option<Image>>, start: nat, n: nat, k: nat)
    requires start <= k < start + n && !Readable(frames, k)
    ensures !BandFits(outputSize, frames, start, n)
  {
  }
}
