/**
 * Sample planes and textures. A plane is a sequence of rows; a texture
 * holds one plane per colour component, the component-major buffer the
 * decoder indexes as `color + nr*nc*icomp`.
 */
module Planes {

  type Plane = seq<seq<int>>
  type Texture = seq<Plane>

  function Pow2(n: nat): (p: nat)
    ensures p >= 1
  {
    if n == 0 then 1 else 2 * Pow2(n - 1)
  }

  /** Largest sample value at `bitDepth` bits, `(1 << bitDepth) - 1`. */
  function MaxSample(bitDepth: nat): int
  {
    Pow2(bitDepth) - 1
  }

  /** `rows` rows of `cols` entries each. */
  predicate Shaped<T>(p: seq<seq<T>>, rows: nat, cols: nat)
  {
    |p| == rows && forall i :: 0 <= i < |p| ==> |p[i]| == cols
  }

  /** A `rows` x `cols` plane with every entry `x`. */
  function Fill<T>(rows: nat, cols: nat, x: T): (p: seq<seq<T>>)
    ensures Shaped(p, rows, cols)
    ensures forall i, j :: 0 <= i < rows && 0 <= j < cols ==> p[i][j] == x
  {
    seq(rows, i => seq(cols, j => x))
  }

  /** The zero-initialised buffer of `ncomp` components. */
  function ZeroTexture(rows: nat, cols: nat, ncomp: nat): (t: Texture)
    ensures |t| == ncomp
    ensures forall c :: 0 <= c < ncomp ==> t[c] == Fill(rows, cols, 0)
  {
    seq(ncomp, c => Fill(rows, cols, 0))
  }

  /** Zero padding by `n` samples on every side. */
  function Pad(p: Plane, rows: nat, cols: nat, n: nat): (q: Plane)
    requires Shaped(p, rows, cols)
    ensures Shaped(q, rows + 2 * n, cols + 2 * n)
    ensures forall i, j :: 0 <= i < rows + 2 * n && 0 <= j < cols + 2 * n ==>
      q[i][j] == (if n <= i < n + rows && n <= j < n + cols then p[i - n][j - n] else 0)
  {
    seq(rows + 2 * n, i =>
      seq(cols + 2 * n, j =>
        if n <= i < n + rows && n <= j < n + cols then p[i - n][j - n] else 0))
  }

  /** The interior left after removing `n` samples from every side. */
  function Crop<T>(q: seq<seq<T>>, n: nat): (p: seq<seq<T>>)
    ensures forall rows: nat, cols: nat :: Shaped(q, rows + 2 * n, cols + 2 * n) ==> Shaped(p, rows, cols)
    ensures forall i, j :: 0 <= i < |p| && 0 <= j < |p[i]| ==>
      i + 2 * n < |q| && j + 2 * n < |q[i + n]| && p[i][j] == q[i + n][j + n]
  {
    if |q| < 2 * n then []
    else
      seq(|q| - 2 * n, i requires 0 <= i < |q| - 2 * n =>
        var row := q[i + n];
        if |row| < 2 * n then [] else row[n..|row| - n])
  }

  /** Cropping undoes padding. */
  lemma CropPad(p: Plane, rows: nat, cols: nat, n: nat)
    requires Shaped(p, rows, cols)
    ensures Crop(Pad(p, rows, cols, n), n) == p
  {
    var c := Crop(Pad(p, rows, cols, n), n);
    assert Shaped(c, rows, cols);
    forall i | 0 <= i < rows
      ensures c[i] == p[i]
    {
      assert |c[i]| == |p[i]|;
    }
  }
}
