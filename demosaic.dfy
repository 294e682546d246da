/**
  The second pass of the integer raw conversion (src/processors/raw.rs:160-251):
  missing channels at interior pixels are filled in place by averaging the strictly
  positive values among four neighbours, cross or diagonal depending on the colour the
  CFA descriptor gives for the pixel.

  `Step` is one pixel of that pass on the three channel buffers taken as values;
  `RowFrom`/`RowsFrom` replay it in raster order, so `PassTwo` is the whole pass, with
  values written earlier feeding later pixels exactly as in the in-place loop.
  `InterpolateInPlace` is the loop itself, over arrays, proved equal to `PassTwo`.
*/
module Demosaic {

  /** The red, green and blue buffers, `w*h` entries each, row-major. */
  datatype Channels = Channels(red: seq<real>, green: seq<real>, blue: seq<real>)

  predicate Sized(p: Channels, n: nat) {
    |p.red| == n && |p.green| == n && |p.blue| == n
  }

  /** The CFA descriptor of the decoder: tile size and the colour it gives a tile position. */
  datatype Cfa = Cfa(width: nat, height: nat, colorAt: (nat, nat) -> nat) {
    predicate Valid() { width > 0 && height > 0 }
  }

  function View(r: array<real>, g: array<real>, b: array<real>): Channels
    reads r, g, b
  {
    Channels(r[..], g[..], b[..])
  }

  // ---------------------------------------------------------------------------
  // Row-major addressing.

  /** Pixel (x, y) is not in the first or last row or column. */
  predicate Interior(w: nat, h: nat, x: nat, y: nat) {
    1 <= x && x + 1 < w && 1 <= y && y + 1 < h
  }

  /** Index `k` of a `w`-wide buffer lies in the first or last row or column. */
  predicate OnBorder(w: nat, h: nat, k: nat)
    requires w > 0
  {
    k % w == 0 || k % w == w - 1 || k / w == 0 || k / w == h - 1
  }

  lemma MulAtLeast(d: int, w: int)
    ensures d >= 1 && w >= 0 ==> d * w >= w
  {
    if d >= 1 && w >= 0 {
      assert d * w == (d - 1) * w + w;
    }
  }

  /** Euclidean division is unique: quotient `q` and remainder `r` are the ones `/` and `%` give. */
  lemma DivModUnique(i: int, w: int, q: int, r: int)
    requires w > 0 && 0 <= r < w && i == q * w + r
    ensures i / w == q && i % w == r
  {
    var q', r' := i / w, i % w;
    assert (q - q') * w == r' - r;
    MulAtLeast(q - q', w);
    MulAtLeast(q' - q, w);
  }

  /** Row-major index `y*w + x` has column `x` and row `y`. */
  lemma IndexDivMod(w: nat, x: nat, y: nat)
    requires x < w
    ensures (y * w + x) / w == y && (y * w + x) % w == x
  {
    DivModUnique(y * w + x, w, y, x);
  }

  /** A pixel inside a `w` by `h` image has its index inside the buffers. */
  lemma IndexInBounds(w: nat, h: nat, x: nat, y: nat)
    requires x < w && y < h
    ensures y * w + x < w * h
  {
    assert (y + 1) * w <= h * w;
  }

  /**
    At an interior pixel every neighbour index i±1, i±w and i±1±w lies in [0, w*h):
    the subtractions cannot wrap and the additions stay inside the buffers.
  */
  lemma NeighboursInBounds(w: nat, h: nat, x: nat, y: nat)
    requires Interior(w, h, x, y)
    ensures y * w + x >= w + 1
    ensures y * w + x + w + 1 < w * h
  {
    assert y * w >= w;
    assert (y + 2) * w <= h * w;
  }

  // ---------------------------------------------------------------------------
  // Averaging the positive neighbours.

  function CountPositive(vs: seq<real>): nat {
    if vs == [] then 0 else (if vs[0] > 0.0 then 1 else 0) + CountPositive(vs[1..])
  }

  function SumPositive(vs: seq<real>): real {
    if vs == [] then 0.0 else (if vs[0] > 0.0 then vs[0] else 0.0) + SumPositive(vs[1..])
  }

  /** The mean of the strictly positive entries, 0.0 when there are none. */
  function MeanOrZero(vs: seq<real>): real {
    var n := CountPositive(vs);
    if n > 0 then SumPositive(vs) / n as real else 0.0
  }

  /** `n` copies of `v` added up. */
  function Times(n: nat, v: real): real {
    if n == 0 then 0.0 else Times(n - 1, v) + v
  }

  lemma {:induction false} TimesIsProduct(n: nat, v: real)
    ensures Times(n, v) == n as real * v
  {
    if n > 0 {
      TimesIsProduct(n - 1, v);
      assert (n - 1) as real * v + v == n as real * v;
    }
  }

  /** The positive entries lie between `lo` and `hi`, and then so does their sum, per entry. */
  lemma {:induction false} SumPositiveBounds(vs: seq<real>, lo: real, hi: real)
    requires forall k :: 0 <= k < |vs| && vs[k] > 0.0 ==> lo <= vs[k] <= hi
    ensures Times(CountPositive(vs), lo) <= SumPositive(vs) <= Times(CountPositive(vs), hi)
  {
    if vs != [] {
      var rest := vs[1..];
      forall k | 0 <= k < |rest| && rest[k] > 0.0 ensures lo <= rest[k] <= hi {
        assert rest[k] == vs[k + 1];
      }
      SumPositiveBounds(rest, lo, hi);
    }
  }

  lemma {:induction false} SumPositiveIsPositive(vs: seq<real>)
    ensures SumPositive(vs) >= 0.0
    ensures CountPositive(vs) > 0 ==> SumPositive(vs) > 0.0
  {
    if vs != [] {
      SumPositiveIsPositive(vs[1..]);
    }
  }

  lemma {:induction false} CountPositiveMeansSome(vs: seq<real>)
    ensures CountPositive(vs) > 0 <==> exists k :: 0 <= k < |vs| && vs[k] > 0.0
  {
    if vs != [] {
      CountPositiveMeansSome(vs[1..]);
      if exists k :: 0 <= k < |vs| && vs[k] > 0.0 {
        var k :| 0 <= k < |vs| && vs[k] > 0.0;
        if k > 0 {
          assert vs[1..][k - 1] == vs[k];
        }
      }
      if exists k :: 0 <= k < |vs[1..]| && vs[1..][k] > 0.0 {
        var k :| 0 <= k < |vs[1..]| && vs[1..][k] > 0.0;
        assert vs[k + 1] == vs[1..][k];
      }
    }
  }

  /**
    An interpolated value is an average: it lies between the smallest and the largest
    positive neighbour, so it is positive, and it is 0.0 exactly when no neighbour is.
  */
  lemma MeanBounds(vs: seq<real>, lo: real, hi: real)
    requires forall k :: 0 <= k < |vs| && vs[k] > 0.0 ==> lo <= vs[k] <= hi
    ensures CountPositive(vs) > 0 ==> lo <= MeanOrZero(vs) <= hi && MeanOrZero(vs) > 0.0
    ensures MeanOrZero(vs) == 0.0 <==> forall k :: 0 <= k < |vs| ==> vs[k] <= 0.0
  {
    CountPositiveMeansSome(vs);
    var n := CountPositive(vs);
    if n > 0 {
      SumPositiveBounds(vs, lo, hi);
      SumPositiveIsPositive(vs);
      DivBounds(SumPositive(vs), n, lo, hi);
    }
  }

  lemma DivBounds(s: real, n: nat, lo: real, hi: real)
    requires n > 0 && Times(n, lo) <= s <= Times(n, hi)
    ensures lo <= s / n as real <= hi
    ensures s > 0.0 ==> s / n as real > 0.0
  {
    TimesIsProduct(n, lo);
    TimesIsProduct(n, hi);
    var m := s / n as real;
    assert m * n as real == s;
  }

  // ---------------------------------------------------------------------------
  // One pixel.

  predicate InRange(idx: seq<nat>, n: nat) {
    forall k :: 0 <= k < |idx| ==> idx[k] < n
  }

  function Gather(ch: seq<real>, idx: seq<nat>): (vs: seq<real>)
    requires InRange(idx, |ch|)
    ensures |vs| == |idx| && forall k :: 0 <= k < |idx| ==> vs[k] == ch[idx[k]]
  {
    seq(|idx|, k requires 0 <= k < |idx| => ch[idx[k]])
  }

  /** The four axis-aligned neighbours, in the order the source lists them. */
  function Cross(w: nat, i: nat): seq<nat>
    requires i >= w + 1
  {
    [i - 1, i + 1, i - w, i + w]
  }

  /** The four diagonal neighbours, in the order the source lists them. */
  function Diagonal(w: nat, i: nat): seq<nat>
    requires i >= w + 1
  {
    [i - 1 - w, i - 1 + w, i + 1 - w, i + 1 + w]
  }

  /** The value entry `i` of `ch` gets: untouched unless it is exactly 0.0. */
  function Filled(ch: seq<real>, i: nat, idx: seq<nat>): real
    requires i < |ch| && InRange(idx, |ch|)
  {
    if ch[i] == 0.0 then MeanOrZero(Gather(ch, idx)) else ch[i]
  }

  /** `if ch[i] == 0.0 { ... ch[i] = sum / valid_count }` on one channel buffer. */
  function Fill(ch: seq<real>, i: nat, idx: seq<nat>): (r: seq<real>)
    requires i < |ch| && InRange(idx, |ch|)
    ensures |r| == |ch| && r[i] == Filled(ch, i, idx)
    ensures forall k :: 0 <= k < |ch| && k != i ==> r[k] == ch[k]
  {
    if ch[i] != 0.0 then ch
    else
      var vs := Gather(ch, idx);
      var n := CountPositive(vs);
      if n > 0 then ch[i := SumPositive(vs) / n as real] else ch
  }

  /** The colour the CFA descriptor gives pixel (x, y). */
  function Color(cfa: Cfa, x: nat, y: nat): nat
    requires cfa.Valid()
  {
    cfa.colorAt(x % cfa.width, y % cfa.height)
  }

  /**
    The body of the second loop at buffer index `i`, whose pixel has colour `color`: a
    red pixel fills green from the cross and blue from the diagonal, a green pixel
    fills red and blue from the cross, a blue pixel fills red from the diagonal and
    green from the cross; any other colour changes nothing.  Only entry `i` may change.
  */
  function StepAt(p: Channels, w: nat, n: nat, color: nat, i: nat): (q: Channels)
    requires Sized(p, n) && i >= w + 1 && i + w + 1 < n
    ensures Sized(q, n)
    ensures forall k :: 0 <= k < n && k != i ==>
      q.red[k] == p.red[k] && q.green[k] == p.green[k] && q.blue[k] == p.blue[k]
    ensures color == 0 ==>
      (q.red[i] == p.red[i]
       && q.green[i] == Filled(p.green, i, Cross(w, i))
       && q.blue[i] == Filled(p.blue, i, Diagonal(w, i)))
    ensures color == 1 ==>
      (q.red[i] == Filled(p.red, i, Cross(w, i))
       && q.green[i] == p.green[i]
       && q.blue[i] == Filled(p.blue, i, Cross(w, i)))
    ensures color == 2 ==>
      (q.red[i] == Filled(p.red, i, Diagonal(w, i))
       && q.green[i] == Filled(p.green, i, Cross(w, i))
       && q.blue[i] == p.blue[i])
    ensures color > 2 ==> q == p
  {
    match color
    case 0 => Channels(p.red, Fill(p.green, i, Cross(w, i)), Fill(p.blue, i, Diagonal(w, i)))
    case 1 => Channels(Fill(p.red, i, Cross(w, i)), p.green, Fill(p.blue, i, Cross(w, i)))
    case 2 => Channels(Fill(p.red, i, Diagonal(w, i)), Fill(p.green, i, Cross(w, i)), p.blue)
    case _ => p
  }

  /**
    The loop body at interior pixel (x, y): `StepAt` at index `y*w + x`, with the
    colour the CFA descriptor gives the pixel.  All of the pixel's neighbours are
    inside the buffers.
  */
  function Step(p: Channels, w: nat, h: nat, cfa: Cfa, x: nat, y: nat): (q: Channels)
    requires Sized(p, w * h) && Interior(w, h, x, y) && cfa.Valid()
    ensures Sized(q, w * h)
    ensures y * w + x >= w + 1 && y * w + x + w + 1 < w * h
  {
    NeighboursInBounds(w, h, x, y);
    StepAt(p, w, w * h, Color(cfa, x, y), y * w + x)
  }

  // ---------------------------------------------------------------------------
  // The whole pass, in raster order.

  /** Pixels x, x+1, ..., w-2 of row y. */
  function RowFrom(p: Channels, w: nat, h: nat, cfa: Cfa, y: nat, x: nat): (q: Channels)
    requires Sized(p, w * h) && 1 <= x && 1 <= y && y + 1 < h && cfa.Valid()
    ensures Sized(q, w * h)
    decreases w - x
  {
    if x + 1 >= w then p
    else RowFrom(Step(p, w, h, cfa, x, y), w, h, cfa, y, x + 1)
  }

  /** Rows y, y+1, ..., h-2. */
  function RowsFrom(p: Channels, w: nat, h: nat, cfa: Cfa, y: nat): (q: Channels)
    requires Sized(p, w * h) && 1 <= y && cfa.Valid()
    ensures Sized(q, w * h)
    decreases h - y
  {
    if y + 1 >= h then p
    else RowsFrom(RowFrom(p, w, h, cfa, y, 1), w, h, cfa, y + 1)
  }

  function PassTwo(p: Channels, w: nat, h: nat, cfa: Cfa): (q: Channels)
    requires Sized(p, w * h) && cfa.Valid()
    ensures Sized(q, w * h)
  {
    RowsFrom(p, w, h, cfa, 1)
  }

  // ---------------------------------------------------------------------------
  // What the pass keeps.

  /** Entry `k` keeps its value on the border, and wherever it was not 0.0. */
  ghost predicate KeepsAt(p: Channels, q: Channels, w: nat, h: nat, k: nat)
    requires w > 0 && Sized(p, w * h) && Sized(q, w * h) && k < w * h
  {
    && (OnBorder(w, h, k) ==> q.red[k] == p.red[k] && q.green[k] == p.green[k] && q.blue[k] == p.blue[k])
    && (p.red[k] != 0.0 ==> q.red[k] == p.red[k])
    && (p.green[k] != 0.0 ==> q.green[k] == p.green[k])
    && (p.blue[k] != 0.0 ==> q.blue[k] == p.blue[k])
  }

  ghost predicate Keeps(p: Channels, q: Channels, w: nat, h: nat)
    requires w > 0
  {
    Sized(p, w * h) && Sized(q, w * h) && forall k :: 0 <= k < w * h ==> KeepsAt(p, q, w, h, k)
  }

  lemma KeepsTransitive(p: Channels, q: Channels, s: Channels, w: nat, h: nat)
    requires w > 0 && Keeps(p, q, w, h) && Keeps(q, s, w, h)
    ensures Keeps(p, s, w, h)
  {
    forall k | 0 <= k < w * h
      ensures KeepsAt(p, s, w, h, k)
    {
      assert KeepsAt(p, q, w, h, k) && KeepsAt(q, s, w, h, k);
    }
  }

  lemma StepKeeps(p: Channels, w: nat, h: nat, cfa: Cfa, x: nat, y: nat)
    requires Sized(p, w * h) && Interior(w, h, x, y) && cfa.Valid()
    ensures Keeps(p, Step(p, w, h, cfa, x, y), w, h)
  {
    var q := Step(p, w, h, cfa, x, y);
    var i := y * w + x;
    IndexDivMod(w, x, y);
    NeighboursInBounds(w, h, x, y);
    assert !OnBorder(w, h, i);
    forall k | 0 <= k < w * h
      ensures KeepsAt(p, q, w, h, k)
    {
    }
  }

  lemma {:induction false} RowFromKeeps(p: Channels, w: nat, h: nat, cfa: Cfa, y: nat, x: nat)
    requires w > 0 && Sized(p, w * h) && 1 <= x && 1 <= y && y + 1 < h && cfa.Valid()
    ensures Keeps(p, RowFrom(p, w, h, cfa, y, x), w, h)
    decreases w - x
  {
    if x + 1 >= w {
      assert forall k :: 0 <= k < w * h ==> KeepsAt(p, p, w, h, k);
    } else {
      var q := Step(p, w, h, cfa, x, y);
      StepKeeps(p, w, h, cfa, x, y);
      RowFromKeeps(q, w, h, cfa, y, x + 1);
      KeepsTransitive(p, q, RowFrom(q, w, h, cfa, y, x + 1), w, h);
    }
  }

  lemma {:induction false} RowsFromKeeps(p: Channels, w: nat, h: nat, cfa: Cfa, y: nat)
    requires w > 0 && Sized(p, w * h) && 1 <= y && cfa.Valid()
    ensures Keeps(p, RowsFrom(p, w, h, cfa, y), w, h)
    decreases h - y
  {
    if y + 1 >= h {
      assert forall k :: 0 <= k < w * h ==> KeepsAt(p, p, w, h, k);
    } else {
      var q := RowFrom(p, w, h, cfa, y, 1);
      RowFromKeeps(p, w, h, cfa, y, 1);
      RowsFromKeeps(q, w, h, cfa, y + 1);
      KeepsTransitive(p, q, RowsFrom(q, w, h, cfa, y + 1), w, h);
    }
  }

  /**
    The second pass touches no border entry, and never overwrites an entry that was not
    exactly 0.0 when the pass began.
  */
  lemma PassTwoKeeps(p: Channels, w: nat, h: nat, cfa: Cfa)
    requires w > 0 && Sized(p, w * h) && cfa.Valid()
    ensures Keeps(p, PassTwo(p, w, h, cfa), w, h)
  {
    RowsFromKeeps(p, w, h, cfa, 1);
  }

  // ---------------------------------------------------------------------------
  // The loop.

  /** `if ch[i] == 0.0 { ... }` on one buffer: gather the neighbours, average the positive ones. */
  method FillAt(ch: array<real>, i: nat, idx: seq<nat>)
    requires i < ch.Length && InRange(idx, ch.Length)
    modifies ch
    ensures ch[..] == Fill(old(ch[..]), i, idx)
  {
    if ch[i] == 0.0 {
      var neighbours := Gather(ch[..], idx);
      var validCount := CountPositive(neighbours);
      if validCount > 0 {
        ch[i] := SumPositive(neighbours) / validCount as real;
      }
    }
  }

  /** The loop body at buffer index `i` of colour `color`, in place. */
  method InterpolateAt(red: array<real>, green: array<real>, blue: array<real>,
                       w: nat, n: nat, color: nat, i: nat)
    requires red != green && green != blue && red != blue
    requires red.Length == n && green.Length == n && blue.Length == n
    requires i >= w + 1 && i + w + 1 < n
    modifies red, green, blue
    ensures View(red, green, blue) == StepAt(old(View(red, green, blue)), w, n, color, i)
  {
    var cross := [i - 1, i + 1, i - w, i + w];
    var diagonal := [i - 1 - w, i - 1 + w, i + 1 - w, i + 1 + w];
    assert cross == Cross(w, i) && diagonal == Diagonal(w, i);
    if color == 0 {
      FillAt(green, i, cross);
      FillAt(blue, i, diagonal);
    } else if color == 1 {
      FillAt(red, i, cross);
      FillAt(blue, i, cross);
    } else if color == 2 {
      FillAt(red, i, diagonal);
      FillAt(green, i, cross);
    }
  }

  /** The loop body at interior pixel (x, y), in place. */
  method InterpolatePixel(red: array<real>, green: array<real>, blue: array<real>,
                          w: nat, h: nat, cfa: Cfa, x: nat, y: nat)
    requires red != green && green != blue && red != blue
    requires red.Length == w * h && green.Length == w * h && blue.Length == w * h
    requires cfa.Valid() && Interior(w, h, x, y)
    modifies red, green, blue
    ensures View(red, green, blue) == Step(old(View(red, green, blue)), w, h, cfa, x, y)
  {
    NeighboursInBounds(w, h, x, y);
    var pixelIdx := y * w + x;
    var color := cfa.colorAt(x % cfa.width, y % cfa.height);
    InterpolateAt(red, green, blue, w, w * h, color, pixelIdx);
  }

  /** The second pass, in place on the three buffers. */
  method InterpolateInPlace(red: array<real>, green: array<real>, blue: array<real>, w: nat, h: nat, cfa: Cfa)
    requires red != green && green != blue && red != blue
    requires red.Length == w * h && green.Length == w * h && blue.Length == w * h
    requires cfa.Valid()
    modifies red, green, blue
    ensures View(red, green, blue) == PassTwo(old(View(red, green, blue)), w, h, cfa)
  {
    ghost var target := PassTwo(View(red, green, blue), w, h, cfa);
    var y := 1;
    while y + 1 < h
      invariant 1 <= y
      invariant RowsFrom(View(red, green, blue), w, h, cfa, y) == target
      decreases h - y
    {
      var x := 1;
      while x + 1 < w
        invariant 1 <= x
        invariant RowsFrom(RowFrom(View(red, green, blue), w, h, cfa, y, x), w, h, cfa, y + 1) == target
        decreases w - x
      {
        InterpolatePixel(red, green, blue, w, h, cfa, x, y);
        x := x + 1;
      }
      y := y + 1;
    }
  }
}
