/** Colouring a height map: the first-match threshold classifier `getColor`
    over (height, slope) and `getColoredMap`, which applies it to every cell
    but those of the last row and the last column. */
module Terrain {
  import opened Arith

  /** An RGB triple of 8-bit channels. */
  datatype Rgb = Rgb(r: int, g: int, b: int)

  /** The six keys of COLORS. */
  datatype Biome = Grass | Forest | Rock | Snow | Sand | Water

  /** The COLORS table. */
  function ColorOf(b: Biome): (c: Rgb)
    ensures c in Palette
  {
    match b
    case Grass => Rgb(34, 139, 34)
    case Forest => Rgb(0, 100, 0)
    case Rock => Rgb(139, 137, 137)
    case Snow => Rgb(255, 250, 250)
    case Sand => Rgb(238, 214, 175)
    case Water => Rgb(65, 105, 255)
  }

  /** The values of COLORS. */
  const Palette: set<Rgb> := {Rgb(34, 139, 34), Rgb(0, 100, 0), Rgb(139, 137, 137),
                              Rgb(255, 250, 250), Rgb(238, 214, 175), Rgb(65, 105, 255)}

  /** The colour np.zeros leaves in a cell nobody writes. */
  const Black := Rgb(0, 0, 0)

  /** Each biome has its own colour, and none of them is black. */
  lemma PaletteFacts()
    ensures forall b1, b2 :: ColorOf(b1) == ColorOf(b2) ==> b1 == b2
    ensures Black !in Palette
  {
  }

  /** The band of (height, slope) each biome covers, stated without the order
      of the tests: a height above .95 is snow whatever the slope; rock needs
      .5 < height <= .95 and slope > .001; forest is the rest of (.10, .95];
      then grass (.05, .10], sand (.03, .05] and water up to .03. */
  predicate InBand(b: Biome, height: real, slope: real)
  {
    match b
    case Snow => height > 0.95
    case Rock => 0.5 < height <= 0.95 && slope > 0.001
    case Forest => 0.10 < height <= 0.95 && !(height > 0.5 && slope > 0.001)
    case Grass => 0.05 < height <= 0.10
    case Sand => 0.03 < height <= 0.05
    case Water => height <= 0.03
  }

  /** The if/elif chain of getColor, strict comparisons, first match wins.
      The bands partition the plane: the result is the one biome whose band
      holds (height, slope). */
  function Classify(height: real, slope: real): (b: Biome)
    ensures forall b' :: b == b' <==> InBand(b', height, slope)
  {
    if height > 0.95 then Snow
    else if height > 0.5 && slope > 0.001 then Rock
    else if height > 0.10 then Forest
    else if height > 0.05 then Grass
    else if height > 0.03 then Sand
    else Water
  }

  /** getColor(height, slope): always one of the six COLORS values. */
  function GetColor(height: real, slope: real): (c: Rgb)
    ensures c in Palette && c != Black
    ensures forall b :: c == ColorOf(b) <==> InBand(b, height, slope)
  {
    PaletteFacts();
    ColorOf(Classify(height, slope))
  }

  /** The thresholds are strict: .95 itself is not snow, .03 itself is water. */
  lemma ThresholdsAreStrict(slope: real)
    ensures GetColor(0.95, slope) != ColorOf(Snow)
    ensures GetColor(0.96, slope) == ColorOf(Snow)
    ensures GetColor(0.03, slope) == ColorOf(Water)
    ensures GetColor(0.7, 0.001) == ColorOf(Forest)
  {
  }

  /** A rows x cols table of reals (a 2-D numpy array of that shape). */
  predicate IsShape(m: seq<seq<real>>, rows: nat, cols: nat)
  {
    |m| == rows && forall x :: 0 <= x < rows ==> |m[x]| == cols
  }

  /** getColoredMap(heightMap, slopeMap): each cell with x < rows-1 and
      y < cols-1 gets the colour of its height and absolute slope; the last
      row and column keep the zeros, which are not a palette colour. */
  method ColoredMap(h: seq<seq<real>>, sl: seq<seq<real>>, rows: nat, cols: nat) returns (cm: seq<seq<Rgb>>)
    requires IsShape(h, rows, cols) && IsShape(sl, rows, cols)
    ensures |cm| == rows && forall x :: 0 <= x < rows ==> |cm[x]| == cols
    ensures forall x, y :: 0 <= x < rows - 1 && 0 <= y < cols - 1 ==> cm[x][y] == GetColor(h[x][y], Abs(sl[x][y]))
    ensures forall x, y :: 0 <= x < rows && 0 <= y < cols && (x == rows - 1 || y == cols - 1) ==> cm[x][y] == Black
    ensures forall x, y :: 0 <= x < rows && 0 <= y < cols ==> (cm[x][y] in Palette <==> x < rows - 1 && y < cols - 1)
  {
    PaletteFacts();
    cm := seq(rows, _ => seq(cols, _ => Black));
    var x := 0;
    while x < rows - 1
      invariant 0 <= x && (x <= rows - 1 || x == 0)
      invariant |cm| == rows && forall i :: 0 <= i < rows ==> |cm[i]| == cols
      invariant forall i, j :: 0 <= i < x && 0 <= j < cols - 1 ==> cm[i][j] == GetColor(h[i][j], Abs(sl[i][j]))
      invariant forall i, j :: 0 <= i < rows && 0 <= j < cols && (i >= x || j >= cols - 1) ==> cm[i][j] == Black
    {
      var y := 0;
      while y < cols - 1
        invariant 0 <= y && (y <= cols - 1 || y == 0)
        invariant |cm| == rows && forall i :: 0 <= i < rows ==> |cm[i]| == cols
        invariant forall i, j :: 0 <= i < x && 0 <= j < cols - 1 ==> cm[i][j] == GetColor(h[i][j], Abs(sl[i][j]))
        invariant forall j :: 0 <= j < y ==> cm[x][j] == GetColor(h[x][j], Abs(sl[x][j]))
        invariant forall i, j :: 0 <= i < rows && 0 <= j < cols && (i > x || j >= cols - 1 || (i == x && j >= y)) ==> cm[i][j] == Black
      {
        cm := cm[x := cm[x][y := GetColor(h[x][y], Abs(sl[x][y]))]];
        y := y + 1;
      }
      x := x + 1;
    }
  }
}
