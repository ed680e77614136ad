/** main.cpp `makeDetRowsNxC`: decide which axis of a `(1, d1, d2)` output
    tensor holds the per-candidate features (C) and which the candidates
    (N), and present the flat row-major buffer as an N-by-C matrix. */
module Layout {
  import opened Numeric

  /** An axis of at most this many entries is taken for the feature axis. */
  const MaxChannels: nat := 512

  /** `ChannelsFirst`: the tensor is `(1, C, N)` and is transposed;
      `ChannelsLast`: it is `(1, N, C)` and is only reshaped. */
  datatype Orientation = ChannelsFirst | ChannelsLast

  datatype Layout = Layout(orientation: Orientation, channels: nat, count: nat)

  /** A `rows`-by-`cols` matrix of candidate rows, the `cv::Mat det` the
      decoder walks with `det.ptr<float>(i)`. */
  datatype Matrix = Matrix(rows: nat, cols: nat, cells: seq<seq<real>>) {

    predicate Valid() {
      |cells| == rows && forall i :: 0 <= i < rows ==> |cells[i]| == cols
    }

    /** Element `(i, j)`: `det.ptr<float>(i)[j]`. */
    function At(i: nat, j: nat): real
      requires Valid() && i < rows && j < cols
    {
      cells[i][j]
    }
  }

  /** The axis decision of `makeDetRowsNxC`: an axis of at most 512 entries
      is the feature axis when the other is not; otherwise the smaller axis
      is, the first one on a tie. */
  function ResolveLayout(d1: nat, d2: nat): (l: Layout)
    ensures d1 <= MaxChannels < d2 ==> l == Layout(ChannelsFirst, d1, d2)
    ensures d2 <= MaxChannels < d1 ==> l == Layout(ChannelsLast, d2, d1)
    ensures (d1 <= MaxChannels <==> d2 <= MaxChannels) ==>
              l.channels == Min(d1, d2) && l.count == Max(d1, d2)
    ensures l.orientation == ChannelsFirst ==> l.channels == d1 && l.count == d2
    ensures l.orientation == ChannelsLast ==> l.channels == d2 && l.count == d1 && d1 != d2
    ensures l.channels * l.count == d1 * d2
  {
    var d1IsC := d1 <= MaxChannels;
    var d2IsC := d2 <= MaxChannels;
    if d1IsC && !d2IsC then Layout(ChannelsFirst, d1, d2)
    else if !d1IsC && d2IsC then Layout(ChannelsLast, d2, d1)
    else if d1 <= d2 then Layout(ChannelsFirst, d1, d2)
    else Layout(ChannelsLast, d2, d1)
  }

  /** Whenever some axis is short enough to be the feature axis, the chosen
      feature axis is short enough too; and it is never the longer axis. */
  lemma ResolvedChannelsAreShort(d1: nat, d2: nat)
    ensures Min(d1, d2) <= MaxChannels ==> ResolveLayout(d1, d2).channels <= MaxChannels
    ensures ResolveLayout(d1, d2).channels <= ResolveLayout(d1, d2).count
  {
  }

  /** Element `(i, j)` of the row-major `rows`-by-`cols` reading of a flat
      buffer: `data[i * cols + j]`. */
  function Entry(data: seq<real>, rows: nat, cols: nat, i: nat, j: nat): real
    requires |data| == rows * cols && i < rows && j < cols
  {
    IndexInBounds(i, j, rows, cols);
    data[i * cols + j]
  }

  /** The N-by-C view `makeDetRowsNxC` returns for the flat buffer `data`:
      the transpose of the C-by-N reshape when channels come first
      (`det[i][j] == data[j * N + i]`), the N-by-C reshape itself otherwise
      (`det[i][j] == data[i * C + j]`). */
  function Canonical(data: seq<real>, l: Layout): (m: Matrix)
    requires |data| == l.channels * l.count
    ensures m.Valid() && m.rows == l.count && m.cols == l.channels
    ensures l.orientation == ChannelsFirst ==>
              forall i, j :: 0 <= i < l.count && 0 <= j < l.channels ==>
                m.At(i, j) == Entry(data, l.channels, l.count, j, i)
    ensures l.orientation == ChannelsLast ==>
              forall i, j :: 0 <= i < l.count && 0 <= j < l.channels ==>
                m.At(i, j) == Entry(data, l.count, l.channels, i, j)
  {
    match l.orientation
    case ChannelsLast => RowMajor(data, l.count, l.channels)
    case ChannelsFirst => ColumnMajor(data, l.channels, l.count)
  }

  /** `reshape(1, rows)`: consecutive runs of `cols` entries become rows. */
  function RowMajor(data: seq<real>, rows: nat, cols: nat): (m: Matrix)
    requires |data| == rows * cols
    ensures m.Valid() && m.rows == rows && m.cols == cols
    ensures forall i, j :: 0 <= i < rows && 0 <= j < cols ==> m.At(i, j) == Entry(data, rows, cols, i, j)
  {
    var cells := seq(rows, i requires 0 <= i < rows => RowOf(data, rows, cols, i));
    Matrix(rows, cols, cells)
  }

  /** Row `i` of the row-major reading of `data`. */
  function RowOf(data: seq<real>, rows: nat, cols: nat, i: nat): (p: seq<real>)
    requires |data| == rows * cols && i < rows
    ensures |p| == cols
    ensures forall j :: 0 <= j < cols ==> p[j] == Entry(data, rows, cols, i, j)
  {
    MulMonotone(i + 1, rows, cols);
    data[i * cols..i * cols + cols]
  }

  /** `reshape(1, c).t()`: row `i` gathers entry `i` of each of the `c`
      runs of `n` entries. */
  function ColumnMajor(data: seq<real>, c: nat, n: nat): (m: Matrix)
    requires |data| == c * n
    ensures m.Valid() && m.rows == n && m.cols == c
    ensures forall i, j :: 0 <= i < n && 0 <= j < c ==> m.At(i, j) == Entry(data, c, n, j, i)
  {
    var cells := seq(n, i requires 0 <= i < n => ColumnOf(data, c, n, i));
    Matrix(n, c, cells)
  }

  /** Column `i` of the `c`-by-`n` row-major reading of `data`. */
  function ColumnOf(data: seq<real>, c: nat, n: nat, i: nat): (p: seq<real>)
    requires |data| == c * n && i < n
    ensures |p| == c
    ensures forall j :: 0 <= j < c ==> p[j] == Entry(data, c, n, j, i)
  {
    seq(c, j requires 0 <= j < c => Entry(data, c, n, j, i))
  }

  // -------------------------------------------------- index arithmetic

  lemma MulMonotone(a: nat, b: nat, c: nat)
    requires a <= b
    ensures a * c <= b * c
  {
  }

  lemma IndexInBounds(i: nat, j: nat, rows: nat, cols: nat)
    requires i < rows && j < cols
    ensures i * cols + j < rows * cols
  {
    MulMonotone(i + 1, rows, cols);
  }
}
