/**
 * Tensor shape resolution: the per-category candidate counts are clamped to
 * [1, max], and eight input tensors of shape [1, count, width] are laid out —
 * four feature tensors (charged, lost tracks, neutral, vertices) followed by
 * four four-vector tensors in the same category order. Every buffer is
 * zero-filled; no feature values are written.
 */
module TensorShapes {

  /** Largest candidate count accepted per category. */
  const MAX_CHARGED: nat := 29
  const MAX_LOST_TRACKS: nat := 5
  const MAX_NEUTRAL: nat := 25
  /** Declared by the source for vertices and never used: the vertex count is fixed at 1. */
  const MAX_VERTICES: nat := 5

  /** Per-row feature widths. */
  const CHARGED_FEATURES: nat := 25
  const LOST_TRACK_FEATURES: nat := 18
  const NEUTRAL_FEATURES: nat := 8
  const VERTEX_FEATURES: nat := 14
  const VEC4_FEATURES: nat := 4

  /** Number of input tensors handed to the model. */
  const INPUT_COUNT: nat := 8

  /** Row width of input tensor `i`, in the order the tensors are laid out. */
  const WIDTHS: seq<nat> := [CHARGED_FEATURES, LOST_TRACK_FEATURES, NEUTRAL_FEATURES, VERTEX_FEATURES,
                             VEC4_FEATURES, VEC4_FEATURES, VEC4_FEATURES, VEC4_FEATURES]

  /** 2^32: the source converts each list size to a 32-bit `unsigned` before clamping. */
  const UNSIGNED_RANGE: nat := 0x1_0000_0000

  /** The resolved row counts of the four categories. */
  datatype Counts = Counts(charged: nat, lostTracks: nat, neutral: nat, vertices: nat)

  /** Row count of input tensor `i`: the category counts, twice over, in layout order. */
  function RowsOf(c: Counts, i: nat): nat
    requires i < INPUT_COUNT
  {
    match i % 4
    case 0 => c.charged
    case 1 => c.lostTracks
    case 2 => c.neutral
    case _ => c.vertices
  }

  /** `std::clamp(v, lo, hi)`: `lo` below the range, `hi` above it, `v` inside. */
  function Clamp(v: nat, lo: nat, hi: nat): (r: nat)
    requires lo <= hi
    ensures lo <= r <= hi
    ensures lo <= v <= hi ==> r == v
    ensures v < lo ==> r == lo
    ensures hi < v ==> r == hi
  {
    if v < lo then lo else if hi < v then hi else v
  }

  /** The count used for a list of `size` candidates when at most `max` rows are accepted. */
  function ResolveCount(size: nat, max: nat): (n: nat)
    requires 1 <= max < UNSIGNED_RANGE
    ensures 1 <= n <= max
    ensures 1 <= size <= max ==> n == size
    ensures size == 0 ==> n == 1
    ensures max < size < UNSIGNED_RANGE ==> n == max
  {
    Clamp(size % UNSIGNED_RANGE, 1, max)
  }

  /** The counts for lists of the given sizes; vertices always get one placeholder row. */
  function ResolveCounts(chargedSize: nat, lostTrackSize: nat, neutralSize: nat): (c: Counts)
    ensures 1 <= c.charged <= MAX_CHARGED && 1 <= c.lostTracks <= MAX_LOST_TRACKS
    ensures 1 <= c.neutral <= MAX_NEUTRAL && c.vertices == 1
    ensures chargedSize <= MAX_CHARGED ==> c.charged == if chargedSize == 0 then 1 else chargedSize
    ensures lostTrackSize <= MAX_LOST_TRACKS ==> c.lostTracks == if lostTrackSize == 0 then 1 else lostTrackSize
    ensures neutralSize <= MAX_NEUTRAL ==> c.neutral == if neutralSize == 0 then 1 else neutralSize
  {
    Counts(ResolveCount(chargedSize, MAX_CHARGED), ResolveCount(lostTrackSize, MAX_LOST_TRACKS),
           ResolveCount(neutralSize, MAX_NEUTRAL), 1)
  }

  /**
   * The eight shapes: each is [1, rows, width] with the category's row count
   * and the tensor's row width.
   */
  function InputShapes(c: Counts): (shapes: seq<seq<int>>)
    ensures |shapes| == INPUT_COUNT
    ensures forall i :: 0 <= i < INPUT_COUNT ==>
      shapes[i] == [1, RowsOf(c, i) as int, WIDTHS[i] as int]
  {
    [[1, c.charged, CHARGED_FEATURES],
     [1, c.lostTracks, LOST_TRACK_FEATURES],
     [1, c.neutral, NEUTRAL_FEATURES],
     [1, c.vertices, VERTEX_FEATURES],
     [1, c.charged, VEC4_FEATURES],
     [1, c.lostTracks, VEC4_FEATURES],
     [1, c.neutral, VEC4_FEATURES],
     [1, c.vertices, VEC4_FEATURES]]
  }

  /** The eight flat sizes: each is the product of its shape's last two dimensions. */
  function InputSizes(c: Counts): (sizes: seq<nat>)
    ensures |sizes| == INPUT_COUNT
    ensures forall i :: 0 <= i < INPUT_COUNT ==> sizes[i] == InputShapes(c)[i][1] * InputShapes(c)[i][2]
  {
    [c.charged * CHARGED_FEATURES,
     c.lostTracks * LOST_TRACK_FEATURES,
     c.neutral * NEUTRAL_FEATURES,
     c.vertices * VERTEX_FEATURES,
     c.charged * VEC4_FEATURES,
     c.lostTracks * VEC4_FEATURES,
     c.neutral * VEC4_FEATURES,
     c.vertices * VEC4_FEATURES]
  }

  /** A zero-filled buffer of `size` floats. */
  function ZeroBuffer(size: nat): (b: seq<real>)
    ensures |b| == size && forall k :: 0 <= k < size ==> b[k] == 0.0
  {
    seq(size, _ => 0.0)
  }

  /** One zero-filled buffer per size, in order. */
  function ZeroBuffers(sizes: seq<nat>): (data: seq<seq<real>>)
    ensures |data| == |sizes|
    ensures forall i :: 0 <= i < |sizes| ==> data[i] == ZeroBuffer(sizes[i])
  {
    seq(|sizes|, i requires 0 <= i < |sizes| => ZeroBuffer(sizes[i]))
  }

  /** One more size adds one more zero buffer at the end. */
  lemma ZeroBuffersAppend(sizes: seq<nat>, size: nat)
    ensures ZeroBuffers(sizes + [size]) == ZeroBuffers(sizes) + [ZeroBuffer(size)]
  {
  }

  /** Shapes, sizes and buffers agree: sizes are the shape products and buffers have those sizes. */
  predicate TensorsConsistent(shapes: seq<seq<int>>, sizes: seq<nat>, data: seq<seq<real>>) {
    && |shapes| == |sizes| == |data|
    && forall i :: 0 <= i < |shapes| ==>
         && |shapes[i]| == 3
         && sizes[i] == shapes[i][1] * shapes[i][2]
         && |data[i]| == sizes[i]
  }

  /** Every buffer is all zeros. */
  predicate AllZero(data: seq<seq<real>>) {
    forall i, k :: 0 <= i < |data| && 0 <= k < |data[i]| ==> data[i][k] == 0.0
  }

  /** Largest row count tensor `i` can have; the vertex tensors always have one row. */
  const MAX_ROWS: seq<nat> := [MAX_CHARGED, MAX_LOST_TRACKS, MAX_NEUTRAL, 1,
                               MAX_CHARGED, MAX_LOST_TRACKS, MAX_NEUTRAL, 1]

  /**
   * Resolved tensors are never degenerate and never exceed their capacity:
   * tensor `i` holds between one and `MAX_ROWS[i]` rows of its width.
   */
  lemma ResolvedSizesBounded(chargedSize: nat, lostTrackSize: nat, neutralSize: nat, i: nat)
    requires i < INPUT_COUNT
    ensures var c := ResolveCounts(chargedSize, lostTrackSize, neutralSize);
      WIDTHS[i] <= InputSizes(c)[i] <= MAX_ROWS[i] * WIDTHS[i]
  {
    var c := ResolveCounts(chargedSize, lostTrackSize, neutralSize);
    assert 1 <= RowsOf(c, i) <= MAX_ROWS[i];
  }

  /** The shapes, sizes and zero buffers laid out for any counts agree with each other. */
  lemma PreparedTensorsConsistent(c: Counts)
    ensures TensorsConsistent(InputShapes(c), InputSizes(c), ZeroBuffers(InputSizes(c)))
    ensures AllZero(ZeroBuffers(InputSizes(c)))
  {
  }

  /** The tensor buffers match their shapes and hold zeros. */
  ghost predicate TensorsReady(shapes: seq<seq<int>>, sizes: seq<nat>, data: seq<seq<real>>) {
    TensorsConsistent(shapes, sizes, data) && AllZero(data)
  }
}
