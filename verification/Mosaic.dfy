/** The mosaic image: blocks of one colour or of noise, painted in place. */
module Mosaic {
  import opened Arithmetic

  type Byte = b: int | 0 <= b < 256

  datatype Pixel = RGB(red: Byte, green: Byte, blue: Byte)

  /** What is drawn: for each block, by its column and row, its kind and colour; for each pixel of noise, the pixel. */
  datatype Draws = Draws(isNoise: (nat, nat) -> bool, color: (nat, nat) -> Pixel, noise: (nat, nat) -> Pixel)

  /** What the image shows at a pixel: the colour of the block it lies in, or its own noise. */
  function Shown(draws: Draws, blockSize: nat, x: nat, y: nat): Pixel
    requires blockSize > 0
  {
    var column, row := x / blockSize, y / blockSize;
    if draws.isNoise(column, row) then draws.noise(x, y) else draws.color(column, row)
  }

  /** The rectangle [x0, x1) x [y0, y1). */
  datatype Block = Block(x0: nat, y0: nat, x1: nat, y1: nat) {
    predicate Has(x: int, y: int) {
      x0 <= x < x1 && y0 <= y < y1
    }
  }

  function Min(a: nat, b: nat): nat {
    if a < b then a else b
  }

  /** Paints a block pixel by pixel, in one colour or with noise, and nothing else. */
  method FillBlock(pixels: array2<Pixel>, b: Block, isNoise: bool, color: Pixel, noise: (nat, nat) -> Pixel)
    requires b.x0 <= b.x1 <= pixels.Length0 && b.y0 <= b.y1 <= pixels.Length1
    modifies pixels
    ensures forall x, y :: 0 <= x < pixels.Length0 && 0 <= y < pixels.Length1 ==>
              pixels[x, y] == if !b.Has(x, y) then old(pixels[x, y]) else if isNoise then noise(x, y) else color
  {
    for y := b.y0 to b.y1
      invariant forall x', y' :: 0 <= x' < pixels.Length0 && 0 <= y' < pixels.Length1 ==>
                  pixels[x', y'] == if !b.(y1 := y).Has(x', y') then old(pixels[x', y'])
                                    else if isNoise then noise(x', y') else color
    {
      for x := b.x0 to b.x1
        invariant forall x', y' :: 0 <= x' < pixels.Length0 && 0 <= y' < pixels.Length1 ==>
                    pixels[x', y'] == if !b.(y1 := y).Has(x', y') && !b.(x1 := x, y0 := y, y1 := y + 1).Has(x', y')
                                      then old(pixels[x', y'])
                                      else if isNoise then noise(x', y') else color
      {
        pixels[x, y] := if isNoise then noise(x, y) else color;
      }
    }
  }

  /** Where a multiple of the block size falls between two multiples. */
  lemma QuotientBetween(x: nat, blockSize: nat, n: nat)
    requires blockSize > 0 && n * blockSize <= x < (n + 1) * blockSize
    ensures x / blockSize == n
  {
    var q, r := x / blockSize, x % blockSize;
    assert x == q * blockSize + r;
    assert (n + 1) * blockSize == n * blockSize + blockSize;
    if q < n {
      Multiples(q + 1, n, blockSize);
    } else if q > n {
      Multiples(n + 1, q, blockSize);
    }
  }

  /** The pixels of this rectangle show what was drawn. */
  ghost predicate Shows(pixels: array2<Pixel>, b: Block, draws: Draws, blockSize: nat)
    requires blockSize > 0
    reads pixels
  {
    forall x: nat, y: nat :: x < pixels.Length0 && y < pixels.Length1 && b.Has(x, y) ==>
      pixels[x, y] == Shown(draws, blockSize, x, y)
  }

  /** The block in this column and row, cut off at the edges of the image. */
  function BlockAt(column: nat, row: nat, blockSize: nat, width: nat, height: nat): Block {
    Block(column * blockSize, row * blockSize,
          Min(column * blockSize + blockSize, width), Min(row * blockSize + blockSize, height))
  }

  /** The blocks tile the image: each pixel lies in the block of its quotients and in no other. */
  lemma BlocksTile(column: nat, row: nat, blockSize: nat, width: nat, height: nat, x: nat, y: nat)
    requires blockSize > 0 && x < width && y < height
    ensures BlockAt(column, row, blockSize, width, height).Has(x, y)
       <==> x / blockSize == column && y / blockSize == row
  {
    Multiples(column, column, blockSize);
    Multiples(row, row, blockSize);
    if BlockAt(column, row, blockSize, width, height).Has(x, y) {
      QuotientBetween(x, blockSize, column);
      QuotientBetween(y, blockSize, row);
    } else if x / blockSize == column && y / blockSize == row {
      Division(x, blockSize);
      Division(y, blockSize);
    }
  }

  /** A solid block shows its one colour throughout; in a noise block each pixel is its own draw. */
  lemma BlockShows(draws: Draws, column: nat, row: nat, blockSize: nat, width: nat, height: nat, x: nat, y: nat)
    requires blockSize > 0 && x < width && y < height
    requires column * blockSize <= x < column * blockSize + blockSize
    requires row * blockSize <= y < row * blockSize + blockSize
    ensures !draws.isNoise(column, row) ==> Shown(draws, blockSize, x, y) == draws.color(column, row)
    ensures draws.isNoise(column, row) ==> Shown(draws, blockSize, x, y) == draws.noise(x, y)
  {
    BlocksTile(column, row, blockSize, width, height, x, y);
  }

  /** Draws and paints one block; the rest of the image stays. */
  method PaintBlock(pixels: array2<Pixel>, column: nat, row: nat, blockSize: nat, draws: Draws)
    requires blockSize > 0 && column * blockSize < pixels.Length0 && row * blockSize < pixels.Length1
    modifies pixels
    ensures Shows(pixels, BlockAt(column, row, blockSize, pixels.Length0, pixels.Length1), draws, blockSize)
    ensures forall x, y :: 0 <= x < pixels.Length0 && 0 <= y < pixels.Length1 ==>
              BlockAt(column, row, blockSize, pixels.Length0, pixels.Length1).Has(x, y)
              || pixels[x, y] == old(pixels[x, y])
  {
    var b := BlockAt(column, row, blockSize, pixels.Length0, pixels.Length1);
    FillBlock(pixels, b, draws.isNoise(column, row), draws.color(column, row), draws.noise);
    forall x: nat, y: nat | x < pixels.Length0 && y < pixels.Length1 && b.Has(x, y)
      ensures pixels[x, y] == Shown(draws, blockSize, x, y)
    {
      BlocksTile(column, row, blockSize, pixels.Length0, pixels.Length1, x, y);
    }
  }

  /**
   The four nested loops paint the whole image: for every size and block size each pixel shows
   the colour of its block or its own noise, in the blocks that the edges cut off too.
   */
  method GenerateImage(width: nat, height: nat, blockSize: nat, draws: Draws) returns (pixels: array2<Pixel>)
    requires blockSize > 0
    ensures pixels.Length0 == width && pixels.Length1 == height
    ensures forall x: nat, y: nat :: x < width && y < height ==> pixels[x, y] == Shown(draws, blockSize, x, y)
  {
    pixels := new Pixel[width, height]((i, j) => RGB(0, 0, 0));
    var row := 0;
    while row * blockSize < height
      invariant Shows(pixels, Block(0, 0, width, row * blockSize), draws, blockSize)
      decreases height - row * blockSize
    {
      var column := 0;
      var bottom := Min(row * blockSize + blockSize, height);
      while column * blockSize < width
        invariant Shows(pixels, Block(0, 0, width, row * blockSize), draws, blockSize)
        invariant Shows(pixels, Block(0, row * blockSize, column * blockSize, bottom), draws, blockSize)
        decreases width - column * blockSize
      {
        PaintBlock(pixels, column, row, blockSize, draws);
        Multiples(column, column, blockSize);
        column := column + 1;
      }
      Multiples(row, row, blockSize);
      row := row + 1;
    }
  }
}
