/**
 * Layered space image (day 8): the input line is cut into 150-character
 * layers; the checksum layer is the one with fewest '0' pixels; the decoded
 * image shows, at each position, the first layer whose pixel there is not
 * transparent ('2').
 */
module SpaceImage {
  import opened Common

  const LAYER_SIZE: nat := 150
  const TRANSPARENT: char := '2'

  function Min(a: nat, b: nat): nat
  {
    if a < b then a else b
  }

  /** The k-th 150-character read from the line (shorter or empty at the end). */
  function Chunk(line: string, k: nat): (c: string)
    ensures |c| <= LAYER_SIZE
  {
    line[Min(k * LAYER_SIZE, |line|)..Min(k * LAYER_SIZE + LAYER_SIZE, |line|)]
  }

  /** `read_image_from_input`: read 150 characters at a time, strip, stop at the first empty layer. */
  function ReadLayers(line: string): (layers: seq<string>)
    ensures forall k :: 0 <= k < |layers| ==> 0 < |layers[k]| <= LAYER_SIZE
    ensures forall k :: 0 <= k < |layers| ==> !IsSpace(layers[k][|layers[k]| - 1])
    decreases |line|
  {
    var chunk := line[..Min(LAYER_SIZE, |line|)];
    var layer := RStrip(chunk);
    if layer == "" then [] else [layer] + ReadLayers(Rest(line))
  }

  lemma ChunkShift(line: string, k: nat)
    requires |line| > 0
    ensures Chunk(Rest(line), k) == Chunk(line, k + 1)
  {
  }

  /** What is left of the line after the first read. */
  function Rest(line: string): string
  {
    line[Min(LAYER_SIZE, |line|)..]
  }

  /** One read: an empty stripped chunk stops the reading, any other is the next layer. */
  lemma ReadLayersUnfold(line: string)
    ensures RStrip(Chunk(line, 0)) == "" ==> ReadLayers(line) == []
    ensures RStrip(Chunk(line, 0)) != "" ==> ReadLayers(line) == [RStrip(Chunk(line, 0))] + ReadLayers(Rest(line))
  {
    assert Chunk(line, 0) == line[..Min(LAYER_SIZE, |line|)];
  }

  /** Layer k is the k-th chunk with its trailing whitespace stripped, and it is not empty. */
  lemma {:induction false} LayersAreStrippedChunks(line: string, k: nat)
    requires k < |ReadLayers(line)|
    ensures ReadLayers(line)[k] == RStrip(Chunk(line, k))
    ensures ReadLayers(line)[k] != ""
    decreases k
  {
    ReadLayersUnfold(line);
    if k > 0 {
      LayersAreStrippedChunks(Rest(line), k - 1);
      ChunkShift(line, k - 1);
    }
  }

  /** Reading stops at the first chunk that strips to nothing. */
  lemma {:induction false} ReadingStopsAtEmptyChunk(line: string)
    ensures RStrip(Chunk(line, |ReadLayers(line)|)) == ""
    decreases |line|
  {
    ReadLayersUnfold(line);
    if RStrip(Chunk(line, 0)) != "" {
      ReadingStopsAtEmptyChunk(Rest(line));
      ChunkShift(line, |ReadLayers(Rest(line))|);
    }
  }

  /** The first layer whose pixel at `p` is not transparent gives the decoded pixel; None if all are. */
  function FirstVisible(layers: seq<string>, p: nat): Option<char>
  {
    if |layers| == 0 then None
    else if p < |layers[0]| && layers[0][p] != TRANSPARENT then Some(layers[0][p])
    else FirstVisible(layers[1..], p)
  }

  /** A layer has a visible pixel at `p` beyond the end of the image being composed. */
  predicate Overflows(layer: string, width: nat, p: nat)
  {
    width <= p < |layer| && layer[p] != TRANSPARENT
  }

  /**
   * The inner loop of `decode_image` from pixel `p` on: a visible pixel fills a
   * still-empty position; a visible pixel past the image's width raises IndexError.
   */
  function OverlayFrom(image: seq<Option<char>>, layer: string, p: nat): (r: Result<seq<Option<char>>>)
    ensures r.Success? <==> forall q :: p <= q ==> !Overflows(layer, |image|, q)
    ensures r.Failure? ==> r.error == IndexError
    ensures r.Success? ==> |r.value| == |image|
    ensures r.Success? ==> forall q :: 0 <= q < |image| ==>
      r.value[q] == if p <= q < |layer| && image[q].None? && layer[q] != TRANSPARENT then Some(layer[q]) else image[q]
    decreases |layer| - p
  {
    if p >= |layer| then Success(image)
    else if layer[p] == TRANSPARENT then OverlayFrom(image, layer, p + 1)
    else if p >= |image| then
      assert Overflows(layer, |image|, p);
      Failure(IndexError)
    else OverlayFrom(if image[p].None? then image[p := Some(layer[p])] else image, layer, p + 1)
  }

  /** The outer loop of `decode_image`, over the layers in order. */
  function Compose(image: seq<Option<char>>, layers: seq<string>): (r: Result<seq<Option<char>>>)
    ensures r.Failure? ==> r.error == IndexError
    ensures r.Success? ==> |r.value| == |image|
  {
    if |layers| == 0 then Success(image)
    else
      match Compose(image, layers[..|layers| - 1])
      case Failure(e) => Failure(e)
      case Success(partial) => OverlayFrom(partial, layers[|layers| - 1], 0)
  }

  /** `decode_image`, without the printing: IndexError on an empty image. */
  function Decode(layers: seq<string>): (r: Result<seq<Option<char>>>)
    ensures |layers| == 0 ==> r == Failure(IndexError)
    ensures r.Failure? ==> r.error == IndexError
    ensures r.Success? ==> |r.value| == |layers[0]|
  {
    if |layers| == 0 then Failure(IndexError)
    else Compose(seq(|layers[0]|, _ => None), layers)
  }

  lemma {:induction false} FirstVisibleAppend(layers: seq<string>, last: string, p: nat)
    ensures FirstVisible(layers + [last], p) ==
      if FirstVisible(layers, p).Some? then FirstVisible(layers, p)
      else if p < |last| && last[p] != TRANSPARENT then Some(last[p])
      else None
  {
    if |layers| > 0 {
      assert (layers + [last])[1..] == layers[1..] + [last];
      FirstVisibleAppend(layers[1..], last, p);
    } else {
      assert [last][1..] == [];
    }
  }

  /**
   * Composing from an all-empty image of width w fails exactly when some layer
   * has a visible pixel at or past w; otherwise every position holds the first
   * visible pixel of the layers.
   */
  lemma {:induction false} ComposeFirstVisible(w: nat, layers: seq<string>)
    ensures var r := Compose(seq(w, _ => None), layers);
      && (r.Failure? <==> exists l, p :: 0 <= l < |layers| && Overflows(layers[l], w, p))
      && (r.Success? ==> |r.value| == w && forall p :: 0 <= p < w ==> r.value[p] == FirstVisible(layers, p))
  {
    var empty: seq<Option<char>> := seq(w, _ => None);
    if |layers| > 0 {
      var front := layers[..|layers| - 1];
      var last := layers[|layers| - 1];
      ComposeFirstVisible(w, front);
      assert forall l :: 0 <= l < |front| ==> front[l] == layers[l];
      var r := Compose(empty, front);
      if r.Success? {
        forall p | 0 <= p < w
          ensures Compose(empty, layers).Success? ==> Compose(empty, layers).value[p] == FirstVisible(layers, p)
        {
          assert layers == front + [last];
          FirstVisibleAppend(front, last, p);
        }
        if Compose(empty, layers).Failure? {
          var q :| 0 <= q && Overflows(last, w, q);
          assert Overflows(layers[|layers| - 1], w, q);
        }
      }
    }
  }

  /**
   * Decoding succeeds exactly when no layer has a visible pixel past the first
   * layer's width; the result has that width and each position is the first
   * visible pixel (None where every layer is transparent).
   */
  lemma DecodeFirstVisible(layers: seq<string>)
    requires |layers| > 0
    ensures var r := Decode(layers);
      && (r.Failure? <==> exists l, p :: 0 <= l < |layers| && Overflows(layers[l], |layers[0]|, p))
      && (r.Success? ==> |r.value| == |layers[0]| && forall p :: 0 <= p < |r.value| ==> r.value[p] == FirstVisible(layers, p))
  {
    ComposeFirstVisible(|layers[0]|, layers);
  }

  /** Occurrences of `c` in `s` (what `Counter` records for `c`). */
  function Count(s: string, c: char): (n: nat)
    ensures n <= |s|
  {
    if |s| == 0 then 0 else Count(s[..|s| - 1], c) + if s[|s| - 1] == c then 1 else 0
  }

  /**
   * `find_fewest_zeroes`: the index of the first layer with the fewest '0'
   * pixels (a later layer must have strictly fewer to replace it), or None for
   * an empty image.
   */
  method FindFewestZeroes(layers: seq<string>) returns (best: Option<nat>)
    ensures best.None? <==> |layers| == 0
    ensures best.Some? ==> best.value < |layers|
    ensures best.Some? ==> forall j :: 0 <= j < |layers| ==> Count(layers[best.value], '0') <= Count(layers[j], '0')
    ensures best.Some? ==> forall j :: 0 <= j < best.value ==> Count(layers[j], '0') > Count(layers[best.value], '0')
  {
    best := None;
    var fewest := 0;
    var i := 0;
    while i < |layers|
      invariant 0 <= i <= |layers|
      invariant best.None? <==> i == 0
      invariant best.Some? ==> best.value < i && fewest == Count(layers[best.value], '0')
      invariant best.Some? ==> forall j :: 0 <= j < i ==> fewest <= Count(layers[j], '0')
      invariant best.Some? ==> forall j :: 0 <= j < best.value ==> Count(layers[j], '0') > fewest
    {
      var zeroes := Count(layers[i], '0');
      if best.None? || zeroes < fewest {
        fewest := zeroes;
        best := Some(i);
      }
      i := i + 1;
    }
  }

  /** Counting over a text written in two parts adds the counts of the parts. */
  lemma {:induction false} CountAppend(a: string, b: string, c: char)
    ensures Count(a + b, c) == Count(a, c) + Count(b, c)
    decreases |b|
  {
    if |b| == 0 {
      assert a + b == a;
    } else {
      assert (a + b)[..|a + b| - 1] == a + b[..|b| - 1];
      CountAppend(a, b[..|b| - 1], c);
    }
  }

  /** Two different characters share the positions of a text: their counts add up to at most its length. */
  lemma {:induction false} CountsDisjoint(s: string, c1: char, c2: char)
    requires c1 != c2
    ensures Count(s, c1) + Count(s, c2) <= |s|
  {
    if |s| > 0 {
      CountsDisjoint(s[..|s| - 1], c1, c2);
    }
  }

  /**
   * `phase_one`: the number of '1' pixels of the chosen layer times its
   * number of '2' pixels; None has no counts (TypeError). Since the two
   * counts share the layer's length n, the product is at most n*n/4.
   */
  function PhaseOne(layer: Option<string>): (r: Result<nat>)
    ensures r.Failure? <==> layer.None?
    ensures layer.Some? ==> r == Success(Count(layer.value, '1') * Count(layer.value, '2'))
    ensures r.Success? ==> 4 * r.value <= |layer.value| * |layer.value|
  {
    match layer
    case None => Failure(TypeError)
    case Some(l) =>
      var ones, twos := Count(l, '1'), Count(l, '2');
      CountsDisjoint(l, '1', '2');
      ProductBound(ones, twos, |l|);
      Success(ones * twos)
  }

  /** a*b is at most a quarter of the square of anything a+b fits under. */
  lemma ProductBound(a: nat, b: nat, n: nat)
    requires a + b <= n
    ensures 4 * (a * b) <= n * n
  {
    SquareGap(a, b);
    MulMono(a + b, n, a + b);
    MulMono(a + b, n, n);
  }

  lemma SquareGap(a: int, b: int)
    ensures (a + b) * (a + b) == 4 * (a * b) + (a - b) * (a - b)
    ensures (a - b) * (a - b) >= 0
  {
  }

  lemma MulMono(x: nat, y: nat, z: nat)
    requires x <= y
    ensures x * z <= y * z
  {
  }

  /** The worked example of the puzzle, with 2x2 layers: 0222 1122 2212 0000 decodes to 0110. */
  lemma SampleDecode()
    ensures Decode(["0222", "1122", "2212", "0000"]) == Success([Some('0'), Some('1'), Some('1'), Some('0')])
  {
    var layers := ["0222", "1122", "2212", "0000"];
    DecodeFirstVisible(layers);
    assert forall l :: 0 <= l < 4 ==> |layers[l]| == 4;
    var r := Decode(layers);
    assert r.Success?;
    assert FirstVisible(layers, 0) == Some('0');
    assert FirstVisible(layers, 1) == Some('1');
    assert FirstVisible(layers, 2) == Some('1');
    assert layers[1..][1..] == ["2212", "0000"];
    assert FirstVisible(layers, 3) == Some('0');
    assert r.value == [Some('0'), Some('1'), Some('1'), Some('0')];
  }
}
