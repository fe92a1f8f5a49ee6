/** The direction set and the column layout of the design matrix
    (makeDirections and the construction of A in localResolution2D.py).
    Only counts, angles and the index layout are modelled; sine, cosine
    and the projection coordinates are not. */
module DirectionBasis {

  /** The value of np.pi written out as a decimal. */
  const Pi: real := 3.141592653589793

  /** Number of directions: floor(pi / angleStep). */
  function NumDirections(angleStep: real): (d: nat)
    requires angleStep > 0.0
    ensures d as real * angleStep <= Pi < (d + 1) as real * angleStep
  {
    var q := Pi / angleStep;
    assert q * angleStep == Pi;
    FloorBracket(q, angleStep);
    q.Floor
  }

  lemma FloorBracket(q: real, step: real)
    requires q > 0.0 && step > 0.0
    ensures q.Floor >= 0
    ensures q.Floor as real * step <= q * step < (q.Floor + 1) as real * step
  {
    var f := q.Floor as real;
    assert f <= q < f + 1.0;
    assert f * step <= q * step;
    assert q * step < (f + 1.0) * step;
  }

  /** The rotation angle of direction i: it projects the window coordinates
      onto the axis at angle i * angleStep. */
  function Angle(i: nat, angleStep: real): real
  {
    i as real * angleStep
  }

  /** The rotation angles of all directions, in loop order. */
  function DirectionAngles(angleStep: real): (angles: seq<real>)
    requires angleStep > 0.0
    ensures |angles| == NumDirections(angleStep)
    ensures forall i :: 0 <= i < |angles| ==> angles[i] == Angle(i, angleStep)
    ensures forall i :: 0 <= i < |angles| ==> 0.0 <= angles[i] < Pi
    ensures forall i, j :: 0 <= i < j < |angles| ==> angles[i] < angles[j]
  {
    var d := NumDirections(angleStep);
    var angles := seq(d, i requires 0 <= i < d => Angle(i, angleStep));
    forall i | 0 <= i < d
      ensures 0.0 <= angles[i] < Pi
    {
      AngleBelowHalfTurn(i, d, angleStep);
    }
    forall i, j | 0 <= i < j < d
      ensures angles[i] < angles[j]
    {
      AnglesIncrease(i, j, angleStep);
    }
    angles
  }

  lemma AngleBelowHalfTurn(i: nat, d: nat, angleStep: real)
    requires angleStep > 0.0 && i < d && d as real * angleStep <= Pi
    ensures 0.0 <= Angle(i, angleStep) < Pi
  {
    assert i as real + 1.0 <= d as real;
    assert (i as real + 1.0) * angleStep <= d as real * angleStep;
  }

  lemma AnglesIncrease(i: nat, j: nat, angleStep: real)
    requires angleStep > 0.0 && i < j
    ensures Angle(i, angleStep) < Angle(j, angleStep)
  {
    var gap := j as real - i as real;
    assert gap >= 1.0;
    assert gap * angleStep > 0.0;
    assert j as real * angleStep == i as real * angleStep + gap * angleStep;
  }

  /** With the default angle step of a quarter turn there are four directions. */
  lemma DefaultDirections()
    ensures NumDirections(Pi / 4.0) == 4
    ensures NumComb(NumDirections(Pi / 4.0)) == 9
  {
    assert Pi / (Pi / 4.0) == 4.0;
  }

  /** Number of design-matrix columns: one constant plus a sine/cosine pair
      per direction. */
  function NumComb(d: nat): nat
  {
    1 + 2 * d
  }

  /** What a column of the design matrix holds. Unset is a column of the
      zero-initialised matrix that no assignment has reached. */
  datatype Column = Unset | Constant | Sine(direction: nat) | Cosine(direction: nat)

  predicate ValidColumn(c: Column, d: nat)
  {
    match c
    case Unset => false
    case Constant => true
    case Sine(i) => i < d
    case Cosine(i) => i < d
  }

  /** Column index where the source stores a basis function. */
  function ColumnIndex(c: Column): nat
    requires !c.Unset?
  {
    match c
    case Constant => 0
    case Sine(i) => 2 * i + 1
    case Cosine(i) => 2 * i + 2
  }

  /** The basis function stored at a column index. */
  function ColumnAt(idx: nat): Column
  {
    if idx == 0 then Constant
    else if idx % 2 == 1 then Sine(idx / 2)
    else Cosine(idx / 2 - 1)
  }

  /** Every basis function of d directions has exactly one column below
      NumComb(d), and reading that column back gives the same function. */
  lemma ColumnIndexRoundTrip(c: Column, d: nat)
    requires ValidColumn(c, d)
    ensures ColumnIndex(c) < NumComb(d)
    ensures ColumnAt(ColumnIndex(c)) == c
  {
  }

  /** Every column index below NumComb(d) holds a valid basis function whose
      own index is that column: the columns are covered exactly once. */
  lemma ColumnAtRoundTrip(idx: nat, d: nat)
    requires idx < NumComb(d)
    ensures ValidColumn(ColumnAt(idx), d)
    ensures ColumnIndex(ColumnAt(idx)) == idx
  {
  }

  /** Two distinct basis functions never share a column. */
  lemma ColumnsDisjoint(c1: Column, c2: Column, d: nat)
    requires ValidColumn(c1, d) && ValidColumn(c2, d) && c1 != c2
    ensures ColumnIndex(c1) != ColumnIndex(c2)
  {
    ColumnIndexRoundTrip(c1, d);
    ColumnIndexRoundTrip(c2, d);
  }

  /** The column assignment of the design matrix: start from an all-zero
      matrix, set column 0 to the constant, then for each direction i set
      columns 2i+1 and 2i+2 to its sine and cosine. */
  method BuildLayout(d: nat) returns (cols: seq<Column>)
    ensures |cols| == NumComb(d)
    ensures forall idx :: 0 <= idx < |cols| ==> ValidColumn(cols[idx], d) && ColumnIndex(cols[idx]) == idx
  {
    cols := seq(NumComb(d), _ => Unset);
    cols := cols[0 := Constant];
    var i := 0;
    while i < d
      invariant 0 <= i <= d
      invariant |cols| == NumComb(d)
      invariant forall idx :: 0 <= idx < |cols| ==> cols[idx] == (if idx < 2 * i + 1 then ColumnAt(idx) else Unset)
    {
      assert cols[2 * i + 1] == Unset && cols[2 * i + 2] == Unset;
      cols := cols[2 * i + 1 := Sine(i)];
      cols := cols[2 * i + 2 := Cosine(i)];
      i := i + 1;
    }
    forall idx | 0 <= idx < |cols|
      ensures ValidColumn(cols[idx], d) && ColumnIndex(cols[idx]) == idx
    {
      ColumnAtRoundTrip(idx, d);
    }
  }
}
