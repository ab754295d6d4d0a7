/** UaVariant: shape queries, setters, matrices and integer conversion over the stack's variant fields. */
module UaVariantModel {
  import opened Common
  import opened VariantValues
  import opened AsyncResults

  newtype Int64 = x: int | -0x8000_0000_0000_0000 <= x < 0x8000_0000_0000_0000

  const TWO_TO_THE_31: int := 0x8000_0000
  const TWO_TO_THE_63: int := 0x8000_0000_0000_0000
  const TWO_TO_THE_64: int := 0x1_0000_0000_0000_0000

  type Int32Value = x: int | -TWO_TO_THE_31 <= x < TWO_TO_THE_31

  /** Narrowing to a 32-bit signed integer keeps the low 32 bits. */
  function ToInt32(x: int): Int32Value {
    var r := x % TWO_TO_THE_32;
    if r < TWO_TO_THE_31 then r else r - TWO_TO_THE_32
  }

  function Product(dims: seq<int>): int {
    if dims == [] then 1 else Product(dims[..|dims|-1]) * dims[|dims|-1]
  }

  /** The product of the factors in any grouping: with one factor it is that, and joining lists multiplies. */
  lemma {:induction false} ProductOfConcat(x: seq<int>, y: seq<int>)
    ensures Product(x + y) == Product(x) * Product(y)
    decreases |y|
  {
    if y == [] {
      assert x + y == x;
    } else {
      var front, last := y[..|y|-1], y[|y|-1];
      assert (x + y)[..|x + y|-1] == x + front;
      ProductOfConcat(x, front);
      MulAssociates(Product(x), Product(front), last);
    }
  }

  lemma MulAssociates(a: int, b: int, c: int)
    ensures (a * b) * c == a * (b * c)
  {
  }

  lemma ProductOfOne(d: int)
    ensures Product([d]) == d
  {
    assert [d][..0] == [];
  }

  /** Narrowing is exact on 32-bit values, and elsewhere differs by a multiple of 2^32. */
  lemma NarrowingKeepsLowBits(x: int)
    ensures ToInt32(x) == x <==> -TWO_TO_THE_31 <= x < TWO_TO_THE_31
    ensures exists k :: ToInt32(x) == x + k * TWO_TO_THE_32
  {
    var q := x / TWO_TO_THE_32;
    assert x == q * TWO_TO_THE_32 + x % TWO_TO_THE_32;
    if x % TWO_TO_THE_32 < TWO_TO_THE_31 {
      assert ToInt32(x) == x + (-q) * TWO_TO_THE_32;
    } else {
      assert ToInt32(x) == x + (-q - 1) * TWO_TO_THE_32;
    }
  }

  // ---------------------------------------------------------------- shapes

  function Scalar(t: TypeTag, x: Elem): Variant {
    Variant(Some(t), Elements([x]), 0, [])
  }

  function ArrayOf(t: TypeTag, es: seq<Elem>): Variant {
    Variant(Some(t), if es == [] then EmptyArray else Elements(es), |es|, [])
  }

  function MatrixOf(t: TypeTag, es: seq<Elem>, dims: seq<UInt32>): Variant {
    ArrayOf(t, es).(dims := dims)
  }

  /** The matrix rule of OPC 10000-6, section 5.2.2.16: dimensions of at least 1 whose product is the array length. */
  predicate DimensionsFit(dims: seq<int>, length: int) {
    && (forall i :: 0 <= i < |dims| ==> dims[i] >= 1)
    && Product(dims) == length && length < TWO_TO_THE_31
  }

  datatype Shape =
    | NullShape
    | ScalarShape(t: TypeTag, x: Elem)
    | ArrayShape(t: TypeTag, es: seq<Elem>)
    | MatrixShape(t: TypeTag, es: seq<Elem>, dims: seq<UInt32>)

  /** The variant's fields are exactly those of the shape. */
  predicate HasShape(v: Variant, shape: Shape) {
    match shape
    case NullShape => v == NULL_VARIANT
    case ScalarShape(t, x) => v == Scalar(t, x)
    case ArrayShape(t, es) => v == ArrayOf(t, es)
    case MatrixShape(t, es, dims) => v == MatrixOf(t, es, dims) && dims != [] && DimensionsFit(dims, |es|)
  }

  ghost predicate WellFormed(v: Variant) {
    exists shape :: HasShape(v, shape)
  }

  /** No variant has two shapes. */
  lemma ShapeIsUnique(v: Variant, a: Shape, b: Shape)
    requires HasShape(v, a) && HasShape(v, b)
    ensures a == b
  {
    if a.MatrixShape? {
      ProductPositive(a.dims);
    }
    if b.MatrixShape? {
      ProductPositive(b.dims);
    }
  }

  lemma ProductPositive(dims: seq<int>)
    requires forall i :: 0 <= i < |dims| ==> dims[i] >= 1
    ensures Product(dims) >= 1
  {
  }

  predicate IsScalarValue(v: Variant) {
    v.data.Elements? && v.arrayLength == 0
  }

  predicate IsMatrix(v: Variant) {
    !v.data.Null? && !IsScalarValue(v) && |v.dims| > 0
  }

  predicate IsArray(v: Variant) {
    !IsScalarValue(v) && !IsMatrix(v)
  }

  predicate IsEmpty(v: Variant) {
    v.typ.None?
  }

  /** OpcUa_VariantArrayType_Scalar, _Array and _Matrix. */
  function ArrayType(v: Variant): int {
    if IsMatrix(v) then 2 else if IsArray(v) && !IsEmpty(v) then 1 else 0
  }

  function ArraySize(v: Variant): Int32Value {
    if !IsArray(v) then -1 else ToInt32(v.arrayLength)
  }

  function DimensionSize(v: Variant): Int32Value {
    if IsMatrix(v) then ToInt32(|v.dims|)
    else if IsArray(v) && !IsEmpty(v) then 1
    else -1
  }

  function ArrayDimensions(v: Variant): seq<UInt32> {
    if IsMatrix(v) then v.dims
    else if IsScalarValue(v) then []
    else [v.arrayLength % TWO_TO_THE_32]
  }

  /**
   * All shape queries agree with the one shape a well-formed variant has. Sizes are reported in 32 bits, so they are
   * exact below 2^31 elements (or dimensions). The null variant is the one that counts as an array without being one.
   */
  lemma QueriesAgree(v: Variant, shape: Shape)
    requires HasShape(v, shape)
    ensures IsEmpty(v) <==> shape.NullShape?
    ensures IsScalarValue(v) <==> shape.ScalarShape?
    ensures IsMatrix(v) <==> shape.MatrixShape?
    ensures IsArray(v) <==> shape.ArrayShape? || shape.NullShape?
    ensures ArrayType(v) == match shape case MatrixShape(_, _, _) => 2 case ArrayShape(_, _) => 1 case _ => 0
    ensures shape.ArrayShape? ==> (ArraySize(v) == |shape.es| <==> |shape.es| < TWO_TO_THE_31)
    ensures shape.ScalarShape? || shape.MatrixShape? ==> ArraySize(v) == -1
    ensures shape.MatrixShape? ==> (DimensionSize(v) == |shape.dims| <==> |shape.dims| < TWO_TO_THE_31)
    ensures !shape.MatrixShape? ==> DimensionSize(v) == if shape.ArrayShape? then 1 else -1
    ensures shape.MatrixShape? ==> ArrayDimensions(v) == shape.dims && Product(ArrayDimensions(v)) == |shape.es|
    ensures shape.ScalarShape? ==> ArrayDimensions(v) == []
    ensures shape.ArrayShape? && |shape.es| < TWO_TO_THE_32 ==> ArrayDimensions(v) == [|shape.es|]
  {
    if shape.MatrixShape? {
      ProductPositive(shape.dims);
    }
  }

  // ---------------------------------------------------------------- setters

  /** The scalar setters of fixed-size types. Writing through the empty-array sentinel has no defined result. */
  function ReuseOrRealloc(v: Variant, t: TypeTag, x: Elem): Option<Variant> {
    if !v.data.Null? && v.typ == Some(t) && v.dims == [] then
      match v.data
      case Elements(es) => if es == [] then None else Some(v.(data := Elements([x] + es[1..])))
      case _ => None
    else Some(Scalar(t, x))
  }

  /** The prior state in which a scalar setter does not replace the value: a 1-D array of the setter's own type. */
  predicate SameTypeArray(v: Variant, t: TypeTag) {
    v.typ == Some(t) && v.dims == [] && !IsScalarValue(v) && !v.data.Null?
  }

  /** A scalar setter makes the variant the given scalar if and only if it did not hold a 1-D array of the same type. */
  lemma ScalarSetterIsExact(v: Variant, shape: Shape, t: TypeTag, x: Elem)
    requires HasShape(v, shape)
    ensures SameTypeArray(v, t) <==> shape.ArrayShape? && shape.t == t
    ensures ReuseOrRealloc(v, t, x) == Some(Scalar(t, x)) <==> !SameTypeArray(v, t)
    ensures SameTypeArray(v, t) ==>
      ReuseOrRealloc(v, t, x) == if shape.es == [] then None else Some(ArrayOf(t, [x] + shape.es[1..]))
  {
    match shape
    case NullShape =>
    case ScalarShape(u, y) => assert [x] + [y][1..] == [x];
    case ArrayShape(u, es) => assert es != [] ==> |[x] + es[1..]| == |es|;
    case MatrixShape(_, _, dims) => ProductPositive(dims);
  }

  /** The case that fails: setInt32(9) over the array [7, 8] leaves an array. */
  lemma ScalarOverArrayStaysArray()
    ensures var v := ArrayOf(Int32, [Number(7), Number(8)]);
      ReuseOrRealloc(v, Int32, Number(9)) == Some(ArrayOf(Int32, [Number(9), Number(8)]))
  {
    var es := [Number(7), Number(8)];
    assert [Number(9)] + es[1..] == [Number(9), Number(8)];
  }

  /** The verdict of validateMatrixDimensions, said without its loop. */
  predicate Acceptable(arrayLength: UInt32, dims: seq<Int32Value>) {
    if dims == [] then arrayLength == 0 else DimensionsFit(dims, arrayLength)
  }

  lemma ProductGrows(dims: seq<int>, i: nat)
    requires i <= |dims| && forall j :: i <= j < |dims| ==> dims[j] >= 1
    requires Product(dims[..i]) >= 0
    ensures Product(dims) >= Product(dims[..i])
    decreases |dims| - i
  {
    if i < |dims| {
      assert dims[..i+1][..i] == dims[..i];
      MulGrows(Product(dims[..i]), dims[i]);
      ProductGrows(dims, i + 1);
    } else {
      assert dims[..i] == dims;
    }
  }

  lemma MulGrows(a: int, b: int)
    requires a >= 0 && b >= 1
    ensures a * b >= a
  {
  }

  lemma MulBounded(a: int, b: int)
    requires 0 <= a < TWO_TO_THE_31 && 1 <= b < TWO_TO_THE_31
    ensures 0 <= a * b < TWO_TO_THE_31 * TWO_TO_THE_31
  {
    MulMonotone(a, b, TWO_TO_THE_31);
    MulMonotone(TWO_TO_THE_31, a, TWO_TO_THE_31);
  }

  lemma MulMonotone(a: int, b: int, c: int)
    requires a >= 0 && 0 <= b <= c
    ensures 0 <= a * b <= a * c
  {
  }

  /** The 64-bit accumulator cannot overflow, and giving up early never rejects what the full product would accept. */
  method ValidateMatrixDimensions(arrayLength: UInt32, dims: seq<Int32Value>) returns (status: StatusCode)
    ensures status == if Acceptable(arrayLength, dims) then Good else BadInvalidArgument
  {
    if |dims| == 0 {
      return if arrayLength == 0 then Good else BadInvalidArgument;
    }
    var numberOfElements: Int64 := 1;
    for i := 0 to |dims|
      invariant numberOfElements as int == Product(dims[..i])
      invariant 1 <= numberOfElements as int < TWO_TO_THE_31
      invariant forall j :: 0 <= j < i ==> dims[j] >= 1
    {
      if dims[i] < 1 {
        return BadInvalidArgument;
      }
      assert dims[..i+1][..i] == dims[..i];
      MulBounded(numberOfElements as int, dims[i]);
      MulGrows(numberOfElements as int, dims[i]);
      numberOfElements := numberOfElements * dims[i] as Int64;
      if numberOfElements >= 0x8000_0000 {
        if forall j :: 0 <= j < |dims| ==> dims[j] >= 1 {
          ProductGrows(dims, i + 1);
        }
        return BadInvalidArgument;
      }
    }
    assert dims[..|dims|] == dims;
    status := if numberOfElements as int == arrayLength then Good else BadInvalidArgument;
  }

  /** setMatrix: the length is narrowed to 32 bits before it is compared with the dimensions. */
  function AfterSetMatrix(v: Variant, t: TypeTag, es: seq<Elem>, dims: seq<Int32Value>): (StatusCode, Variant) {
    if !Acceptable(|es| % TWO_TO_THE_32, dims) then (BadInvalidArgument, v)
    else (Good, MatrixOf(t, es, AsUnsigned(dims)))
  }

  function AsUnsigned(dims: seq<Int32Value>): seq<UInt32> {
    seq(|dims|, i requires 0 <= i < |dims| => dims[i] % TWO_TO_THE_32)
  }

  function AsSigned(dims: seq<UInt32>): seq<Int32Value> {
    seq(|dims|, i requires 0 <= i < |dims| => ToInt32(dims[i]))
  }

  lemma SignsAgree(dims: seq<Int32Value>)
    requires forall i :: 0 <= i < |dims| ==> dims[i] >= 1
    ensures AsUnsigned(dims) == dims && AsSigned(AsUnsigned(dims)) == dims
  {
    assert forall i :: 0 <= i < |dims| ==> AsUnsigned(dims)[i] == dims[i];
  }

  /** What setMatrix leaves behind: the old variant when it refuses, a 1-D array without dimensions, or a matrix. */
  lemma SetMatrixShapes(v: Variant, t: TypeTag, es: seq<Elem>, dims: seq<Int32Value>)
    requires |es| < TWO_TO_THE_32
    ensures var (status, v') := AfterSetMatrix(v, t, es, dims);
      && (status == Good <==> Acceptable(|es|, dims))
      && (status != Good ==> v' == v && status == BadInvalidArgument)
      && (status == Good && dims == [] ==> es == [] && HasShape(v', ArrayShape(t, [])))
      && (status == Good && dims != [] ==> HasShape(v', MatrixShape(t, es, AsUnsigned(dims))))
  {
    if dims != [] && Acceptable(|es|, dims) {
      SignsAgree(dims);
    }
  }

  // ---------------------------------------------------------------- getters of arrays and matrices

  /** Elements are present for all the length the variant claims. */
  predicate Readable(v: Variant) {
    match v.data
    case Elements(es) => |es| >= 1 && |es| >= v.arrayLength
    case _ => v.arrayLength == 0
  }

  /** UA_Variant_copy. */
  function CopyOf(v: Variant): Variant
    requires Readable(v)
  {
    match v.data
    case Elements(es) => v.(data := Elements(es[..if IsScalarValue(v) then 1 else v.arrayLength]))
    case _ => v
  }

  lemma CopyIsFaithful(v: Variant)
    requires WellFormed(v)
    ensures Readable(v) && CopyOf(v) == v
  {
    var shape :| HasShape(v, shape);
    match shape
    case NullShape =>
    case ScalarShape(_, x) => assert [x][..1] == [x];
    case ArrayShape(_, es) => assert es[..|es|] == es;
    case MatrixShape(_, es, dims) =>
      ProductPositive(dims);
      assert es[..|es|] == es;
  }

  /** toArray: any array or matrix of the type, flat. */
  function ToArray(v: Variant, t: TypeTag): Option<seq<Elem>>
    requires Readable(v)
  {
    if !IsScalarValue(v) && v.typ == Some(t) then
      Some(if v.data.Elements? then v.data.elems[..v.arrayLength] else [])
    else None
  }

  /** toMatrix on a variant whose partial products stay in 64 bits. */
  function ToMatrix(v: Variant, t: TypeTag): (StatusCode, seq<Elem>, seq<Int32Value>)
    requires Readable(v)
  {
    if !IsMatrix(v) || v.typ != Some(t) then (BadTypeMismatch, [], [])
    else if Product(v.dims) != v.arrayLength then (BadInvalidArgument, [], [])
    else (Good, if v.data.Elements? then v.data.elems[..v.arrayLength] else [], AsSigned(v.dims))
  }

  /**
   * The matrix round trip, also through a copy. It holds for every accepted input exactly when the input is shorter
   * than 2^32 elements: a longer one can be accepted by its low 32 bits and is then refused by toMatrix.
   */
  lemma MatrixRoundTrip(v: Variant, t: TypeTag, es: seq<Elem>, dims: seq<Int32Value>)
    requires AfterSetMatrix(v, t, es, dims).0 == Good && dims != []
    ensures var v' := AfterSetMatrix(v, t, es, dims).1;
      && Readable(v') && Readable(CopyOf(v')) && CopyOf(v') == v'
      && (ToMatrix(v', t) == (Good, es, dims) <==> |es| < TWO_TO_THE_32)
      && (|es| >= TWO_TO_THE_32 ==> ToMatrix(v', t).0 == BadInvalidArgument)
      && ToArray(v', t) == Some(es)
  {
    SignsAgree(dims);
    ProductPositive(dims);
    assert es != [];
    assert es[..|es|] == es;
  }

  /** The case that fails: 2^32 + 1 elements pass for one; neither toMatrix nor the matrix rule accepts the outcome. */
  lemma LongInputIsTruncated()
    ensures var es := seq(TWO_TO_THE_32 + 1, _ => Number(0));
      var (status, v) := AfterSetMatrix(NULL_VARIANT, Int32, es, [1]);
      status == Good && Readable(v) && ToMatrix(v, Int32).0 == BadInvalidArgument && !WellFormed(v)
  {
    var es := seq(TWO_TO_THE_32 + 1, _ => Number(0));
    var dims: seq<Int32Value> := [1];
    ProductOfOne(1);
    SignsAgree(dims);
    var v := MatrixOf(Int32, es, AsUnsigned(dims));
    assert AfterSetMatrix(NULL_VARIANT, Int32, es, dims) == (Good, v);
    assert forall shape :: !HasShape(v, shape);
  }

  /** A 1-D array comes back as it was set, also through a copy. */
  lemma ArrayRoundTrip(t: TypeTag, es: seq<Elem>)
    ensures var v := ArrayOf(t, es);
      Readable(v) && CopyOf(v) == v && ToArray(v, t) == Some(es) && forall u :: u != t ==> ToArray(v, u) == None
  {
    assert es[..|es|] == es;
  }

  /** No dimension is larger than the product. */
  lemma {:induction false} FactorsBounded(dims: seq<int>, i: nat)
    requires i < |dims| && forall j :: 0 <= j < |dims| ==> dims[j] >= 1
    ensures 1 <= dims[i] <= Product(dims)
    decreases |dims|
  {
    var front, last := dims[..|dims|-1], dims[|dims|-1];
    ProductPositive(front);
    MulGrows(Product(front), last);
    MulGrows(last, Product(front));
    if i < |front| {
      FactorsBounded(front, i);
    }
  }

  lemma SmallNumbersAreSigned(dims: seq<UInt32>)
    requires forall i :: 0 <= i < |dims| ==> dims[i] < TWO_TO_THE_31
    ensures AsSigned(dims) == dims
  {
  }

  lemma MatrixDimensionsAreSigned(dims: seq<UInt32>, length: nat)
    requires DimensionsFit(dims, length)
    ensures AsSigned(dims) == dims
  {
    forall i | 0 <= i < |dims|
      ensures dims[i] < TWO_TO_THE_31
    {
      FactorsBounded(dims, i);
    }
    SmallNumbersAreSigned(dims);
  }

  /** Of all the variants that setters can build, toMatrix reads the matrices of its own type, exactly as they are. */
  lemma MatrixReadsAreExact(v: Variant, shape: Shape, t: TypeTag)
    requires HasShape(v, shape) && Readable(v)
    ensures shape.MatrixShape? && shape.t == t ==> ToMatrix(v, t) == (Good, shape.es, shape.dims)
    ensures !(shape.MatrixShape? && shape.t == t) ==> ToMatrix(v, t) == (BadTypeMismatch, [], [])
  {
    if shape.MatrixShape? {
      ProductPositive(shape.dims);
      MatrixDimensionsAreSigned(shape.dims, |shape.es|);
      assert shape.es[..|shape.es|] == shape.es;
    }
  }

  /** What toMatrix answers for any variant, one wrapped from the stack's own type included. */
  lemma MatrixStatusIsExact(v: Variant, t: TypeTag)
    requires Readable(v)
    ensures var (status, es, dims) := ToMatrix(v, t);
      var matrix := v.dims != [] && v.typ == Some(t) && (v.data.EmptyArray? || (v.data.Elements? && v.arrayLength > 0));
      && (status == BadTypeMismatch <==> !matrix)
      && (status == BadInvalidArgument <==> matrix && Product(v.dims) != v.arrayLength)
      && (status == Good <==> matrix && Product(v.dims) == v.arrayLength)
      && (status == Good ==>
            && |es| == v.arrayLength && |dims| == |v.dims|
            && (forall i :: 0 <= i < |es| ==> v.data.Elements? && es[i] == v.data.elems[i])
            && (forall i :: 0 <= i < |dims| && v.dims[i] < TWO_TO_THE_31 ==> dims[i] == v.dims[i]))
      && (status != Good ==> es == [] && dims == [])
  {
  }

  /** toArray reads arrays and matrices of its own type, flat, and refuses everything else. */
  lemma ArrayReadsAreExact(v: Variant, shape: Shape, t: TypeTag)
    requires HasShape(v, shape) && Readable(v)
    ensures (shape.ArrayShape? || shape.MatrixShape?) && shape.t == t ==> ToArray(v, t) == Some(shape.es)
    ensures !((shape.ArrayShape? || shape.MatrixShape?) && shape.t == t) ==> ToArray(v, t) == None
  {
    if shape.MatrixShape? {
      ProductPositive(shape.dims);
    }
    if shape.ArrayShape? || shape.MatrixShape? {
      assert shape.es[..|shape.es|] == shape.es;
    }
  }

  // ---------------------------------------------------------------- integer conversion

  predicate IsInteger(t: TypeTag) {
    t.Boolean? || t.SByte? || t.Byte? || t.Int16? || t.UInt16? || t.Int32? || t.UInt32Tag? || t.Int64? || t.UInt64?
  }

  predicate IsFloating(t: TypeTag) {
    t.Float? || t.Double?
  }

  /** isNumericType. */
  predicate IsNumeric(t: TypeTag) {
    IsInteger(t) || IsFloating(t)
  }

  function Lowest(t: TypeTag): int {
    match t
    case SByte => -0x80
    case Int16 => -0x8000
    case Int32 => -0x8000_0000
    case Int64 => -0x8000_0000_0000_0000
    case _ => 0
  }

  function Highest(t: TypeTag): int {
    match t
    case Boolean => 1
    case SByte => 0x7f
    case Byte => 0xff
    case Int16 => 0x7fff
    case UInt16 => 0xffff
    case Int32 => 0x7fff_ffff
    case UInt32Tag => 0xffff_ffff
    case Int64 => 0x7fff_ffff_ffff_ffff
    case UInt64 => 0xffff_ffff_ffff_ffff
    case _ => 0
  }

  function Power2(n: nat): int {
    if n == 0 then 1 else 2 * Power2(n - 1)
  }

  lemma {:induction false} PowersMultiply(m: nat, n: nat)
    ensures Power2(m + n) == Power2(m) * Power2(n)
    decreases n
  {
    if n > 0 {
      PowersMultiply(m, n - 1);
      MulAssociates(Power2(m), Power2(n - 1), 2);
    }
  }

  lemma Powers()
    ensures Power2(7) == 0x80 && Power2(8) == 0x100 && Power2(15) == 0x8000 && Power2(16) == 0x1_0000
    ensures Power2(31) == TWO_TO_THE_31 && Power2(32) == TWO_TO_THE_32 && Power2(63) == TWO_TO_THE_63
    ensures Power2(64) == TWO_TO_THE_64
  {
    assert Power2(4) == 16;
    assert Power2(7) == 0x80;
    PowersMultiply(8, 7);
    PowersMultiply(8, 8);
    PowersMultiply(16, 15);
    PowersMultiply(16, 16);
    PowersMultiply(32, 31);
    PowersMultiply(32, 32);
  }

  /** The numbers an integer type holds: all of its width, in two's complement if it is signed; a Boolean is one bit. */
  lemma RangesFollowTheWidth(n: int)
    ensures InRange(Boolean, n) <==> 0 <= n <= 1
    ensures InRange(SByte, n) <==> -Power2(7) <= n < Power2(7)
    ensures InRange(Byte, n) <==> 0 <= n < Power2(8)
    ensures InRange(Int16, n) <==> -Power2(15) <= n < Power2(15)
    ensures InRange(UInt16, n) <==> 0 <= n < Power2(16)
    ensures InRange(Int32, n) <==> -Power2(31) <= n < Power2(31)
    ensures InRange(UInt32Tag, n) <==> 0 <= n < Power2(32)
    ensures InRange(Int64, n) <==> -Power2(63) <= n < Power2(63)
    ensures InRange(UInt64, n) <==> 0 <= n < Power2(64)
  {
    Powers();
  }

  predicate InRange(t: TypeTag, n: int) {
    Lowest(t) <= n <= Highest(t)
  }

  /** What libraries make of a value: its printed text, and its conversion from or to floating point if in range. */
  datatype Outside = Outside(text: Elem, number: Option<Elem>)

  /** Undefined means that the empty-array sentinel would be read. */
  datatype Conversion = Converted(x: Elem) | Failed(status: StatusCode) | Undefined

  /** toSimpleType. */
  function ToSimpleType(v: Variant, target: TypeTag, outside: Outside): Conversion
    requires Readable(v)
  {
    if v.data.Null? || v.typ.None? then Failed(Bad)
    else if v.typ != Some(target) && !(IsNumeric(v.typ.value) && IsNumeric(target)) then Failed(Bad)
    else if v.data.EmptyArray? then Undefined
    else if v.typ == Some(target) then Converted(v.data.elems[0])
    else ConvertNumericType(v.typ.value, v.data.elems[0], target, outside)
  }

  /** convertNumericType. */
  function ConvertNumericType(source: TypeTag, first: Elem, target: TypeTag, outside: Outside): Conversion {
    if IsFloating(source) || IsFloating(target) then
      match outside.number
      case Some(x) => Converted(x)
      case None => Failed(BadOutOfRange)
    else if first.Number? && InRange(target, first.n) then Converted(first)
    else Failed(BadOutOfRange)
  }

  /** A scalar is read back as it was set, and by the getters of no other type unless both are numbers. */
  lemma ScalarRoundTrip(t: TypeTag, x: Elem, u: TypeTag, outside: Outside)
    ensures ToSimpleType(Scalar(t, x), t, outside) == Converted(x)
    ensures u != t && !(IsNumeric(t) && IsNumeric(u)) ==> ToSimpleType(Scalar(t, x), u, outside) == Failed(Bad)
    ensures ToSimpleType(NULL_VARIANT, u, outside) == Failed(Bad)
  {
  }

  /** changeType; None where it would read the empty-array sentinel. */
  function AfterChangeType(v: Variant, target: TypeTag, toArray: bool, outside: Outside): Option<(StatusCode, Variant)>
    requires Readable(v)
  {
    if toArray then Some((BadNotSupported, v))
    else if !v.data.Null? && v.typ == Some(target) then Some((Good, v))
    else if target.String? then Some((Good, Scalar(String, outside.text)))
    else if !IsNumeric(target) then Some((BadNotSupported, v))
    else match ToSimpleType(v, target, outside)
      case Failed(status) => Some((status, v))
      case Converted(x) => Some((Good, ReuseOrRealloc(v, target, x).value))
      case Undefined => None
  }

  /** An empty array of one numeric type is to become a number of another. */
  predicate ReadsSentinel(v: Variant, target: TypeTag, toArray: bool) {
    && !toArray && v.data.EmptyArray?
    && v.typ.Some? && v.typ != Some(target) && IsNumeric(v.typ.value) && IsNumeric(target)
  }

  /**
   * Changing the type of any variant that setters can build, whatever the libraries make of its value, is all or
   * nothing: with Good it has the target type, and is unchanged or a scalar; with any other status it is unchanged.
   */
  lemma ChangeTypeIsAllOrNothing(v: Variant, shape: Shape, t: TypeTag, toArray: bool, outside: Outside)
    requires HasShape(v, shape) && Readable(v)
    ensures AfterChangeType(v, t, toArray, outside).None? <==> ReadsSentinel(v, t, toArray)
    ensures !ReadsSentinel(v, t, toArray) ==>
      var (status, v') := AfterChangeType(v, t, toArray, outside).value;
      && (status == Good ==> !toArray && v'.typ == Some(t) && (v' == v || exists x :: HasShape(v', ScalarShape(t, x))))
      && (status == Good && v.typ == Some(t) ==> v' == v)
      && (status != Good ==> v' == v && (status == Bad || status == BadOutOfRange || status == BadNotSupported))
  {
    if !toArray && v.typ != Some(t) && IsNumeric(t) && ToSimpleType(v, t, outside).Converted? {
      var (_, v') := AfterChangeType(v, t, toArray, outside).value;
      assert HasShape(v', ScalarShape(t, ToSimpleType(v, t, outside).x));
    } else if !toArray && v.typ != Some(t) && t.String? {
      assert HasShape(Scalar(t, outside.text), ScalarShape(t, outside.text));
    }
  }

  /**
   * On any array or matrix of integers changeType keeps its type, or makes it the scalar of its first element if the
   * target can hold that, and otherwise changes nothing.
   */
  lemma ChangeTypeKeepsTheFirst(v: Variant, shape: Shape, b: TypeTag, outside: Outside)
    requires HasShape(v, shape) && (shape.ArrayShape? || shape.MatrixShape?) && Readable(v)
    requires IsInteger(shape.t) && IsInteger(b) && shape.es != [] && shape.es[0].Number?
    ensures AfterChangeType(v, b, false, outside) ==
      Some(if b == shape.t then (Good, v)
           else if InRange(b, shape.es[0].n) then (Good, Scalar(b, shape.es[0]))
           else (BadOutOfRange, v))
  {
  }

  lemma NumericTypes(t: TypeTag)
    ensures IsInteger(t) <==> t in {Boolean, SByte, Byte, Int16, UInt16, Int32, UInt32Tag, Int64, UInt64}
    ensures IsFloating(t) <==> t in {Float, Double}
    ensures IsNumeric(t) <==> IsInteger(t) || IsFloating(t)
  {
  }

  /**
   * The status and the value that changeType leaves, for every setter-built variant whose type it does not have yet:
   * text for a String target; Bad for an empty variant or one that is not a number; the library's conversion where
   * floating point is involved; and BadNotSupported for any other target.
   */
  lemma ChangeTypeOutcomes(v: Variant, shape: Shape, t: TypeTag, outside: Outside)
    requires HasShape(v, shape) && Readable(v) && v.typ != Some(t)
    ensures AfterChangeType(v, t, true, outside) == Some((BadNotSupported, v))
    ensures t == String ==> AfterChangeType(v, t, false, outside) == Some((Good, Scalar(String, outside.text)))
    ensures t != String && !IsNumeric(t) ==> AfterChangeType(v, t, false, outside) == Some((BadNotSupported, v))
    ensures IsNumeric(t) && (shape.NullShape? || !IsNumeric(shape.t)) ==>
      AfterChangeType(v, t, false, outside) == Some((Bad, v))
    ensures IsNumeric(t) && !shape.NullShape? && IsNumeric(shape.t) && v.data != EmptyArray ==>
      var floating := t == Float || t == Double || shape.t == Float || shape.t == Double;
      floating ==>
        AfterChangeType(v, t, false, outside) ==
          if outside.number.Some? then Some((Good, Scalar(t, outside.number.value))) else Some((BadOutOfRange, v))
  {
  }

  /** An integer or Boolean scalar changes its type exactly when the target can hold the number, and then keeps it. */
  lemma NumberSurvives(a: TypeTag, n: int, b: TypeTag, outside: Outside)
    requires IsInteger(a) && IsInteger(b) && InRange(a, n)
    ensures AfterChangeType(Scalar(a, Number(n)), b, false, outside) ==
      Some(if InRange(b, n) then (Good, Scalar(b, Number(n))) else (BadOutOfRange, Scalar(a, Number(n))))
  {
  }

  /** Whatever could be converted converts back to the original. */
  lemma ChangeTypeIsReversible(a: TypeTag, n: int, b: TypeTag, outside: Outside)
    requires IsInteger(a) && IsInteger(b) && InRange(a, n)
    requires AfterChangeType(Scalar(a, Number(n)), b, false, outside).value.0 == Good
    ensures var v' := AfterChangeType(Scalar(a, Number(n)), b, false, outside).value.1;
      Readable(v') && AfterChangeType(v', a, false, outside) == Some((Good, Scalar(a, Number(n))))
  {
  }

  // ---------------------------------------------------------------- any sequence of operations

  datatype Op =
    | SetScalar(t: TypeTag, x: Elem)
    | SetText(t: TypeTag, x: Elem)
    | SetArray(t: TypeTag, es: seq<Elem>)
    | SetMatrix(t: TypeTag, es: seq<Elem>, dims: seq<Int32Value>)
    | ChangeType(t: TypeTag, toArray: bool, outside: Outside)
    | Clear
    | Assign(other: Variant)

  /** Assignment copies another well-formed variant; matrix inputs are shorter than 2^32 elements. */
  ghost predicate Proper(op: Op) {
    && (op.Assign? ==> WellFormed(op.other))
    && (op.SetMatrix? ==> |op.es| < TWO_TO_THE_32)
  }

  /** The value after an operation, or None where the code has no defined result. */
  ghost function After(v: Variant, op: Op): Option<Variant>
    requires Proper(op)
  {
    match op
    case SetScalar(t, x) => ReuseOrRealloc(v, t, x)
    case SetText(t, x) => Some(Scalar(t, x))
    case SetArray(t, es) => Some(ArrayOf(t, es))
    case SetMatrix(t, es, dims) => Some(AfterSetMatrix(v, t, es, dims).1)
    case ChangeType(t, toArray, outside) =>
      if !Readable(v) || AfterChangeType(v, t, toArray, outside).None? then None
      else Some(AfterChangeType(v, t, toArray, outside).value.1)
    case Clear => Some(NULL_VARIANT)
    case Assign(other) => CopyIsFaithful(other); Some(CopyOf(other))
  }

  /** Every prefix of the operations has a defined result. */
  ghost predicate Defined(v: Variant, ops: seq<Op>)
    decreases |ops|
  {
    ops == [] || (Proper(ops[0]) && After(v, ops[0]).Some? && Defined(After(v, ops[0]).value, ops[1..]))
  }

  ghost function AfterAll(v: Variant, ops: seq<Op>): Variant
    requires Defined(v, ops)
    decreases |ops|
  {
    if ops == [] then v else AfterAll(After(v, ops[0]).value, ops[1..])
  }

  lemma OpKeepsWellFormed(v: Variant, op: Op)
    requires WellFormed(v) && Proper(op)
    ensures After(v, op).None? <==>
        || (op.SetScalar? && SameTypeArray(v, op.t) && v.arrayLength == 0)
        || (op.ChangeType? && ReadsSentinel(v, op.t, op.toArray))
    ensures After(v, op).Some? ==> WellFormed(After(v, op).value)
  {
    var shape :| HasShape(v, shape);
    match op
    case SetScalar(t, x) =>
      ScalarSetterIsExact(v, shape, t, x);
      if SameTypeArray(v, t) {
        if shape.es != [] {
          assert HasShape(After(v, op).value, ArrayShape(t, [x] + shape.es[1..]));
        }
      } else {
        assert HasShape(After(v, op).value, ScalarShape(t, x));
      }
    case SetText(t, x) => assert HasShape(After(v, op).value, ScalarShape(t, x));
    case SetArray(t, es) => assert HasShape(After(v, op).value, ArrayShape(t, es));
    case SetMatrix(t, es, dims) =>
      SetMatrixShapes(v, t, es, dims);
    case ChangeType(t, toArray, outside) =>
      CopyIsFaithful(v);
      ChangeTypeIsAllOrNothing(v, shape, t, toArray, outside);
    case Clear => assert HasShape(After(v, op).value, NullShape);
    case Assign(other) => CopyIsFaithful(other);
  }

  /**
   * Starting from an empty variant, every sequence of setters, clears, assignments and changes of type that has a
   * defined result ends in a variant of exactly one shape, whose queries then agree. The steps without one are those
   * of OpKeepsWellFormed: they go through the empty-array sentinel.
   */
  lemma {:induction false} EverySequenceIsWellFormed(v: Variant, ops: seq<Op>)
    requires WellFormed(v) && Defined(v, ops)
    ensures WellFormed(AfterAll(v, ops))
    decreases |ops|
  {
    if ops != [] {
      OpKeepsWellFormed(v, ops[0]);
      EverySequenceIsWellFormed(After(v, ops[0]).value, ops[1..]);
    }
  }

  // ---------------------------------------------------------------- the object

  /** The partial products of the dimensions stay in 64 bits. */
  ghost predicate ProductsFit(dims: seq<UInt32>) {
    forall k :: 0 <= k <= |dims| ==> 0 <= Product(dims[..k]) < TWO_TO_THE_63
  }

  /** Dimensions written by setMatrix satisfy it. */
  lemma MatrixProductsFit(dims: seq<UInt32>, length: nat)
    requires DimensionsFit(dims, length)
    ensures ProductsFit(dims)
  {
    forall k | 0 <= k <= |dims|
      ensures 0 <= Product(dims[..k]) < TWO_TO_THE_63
    {
      ProductPositive(dims[..k]);
      ProductGrows(dims, k);
    }
  }

  /** The product loop that toMatrix and noOfMatrixElements share. */
  method ProductOf(dims: seq<UInt32>) returns (product: Int64)
    requires ProductsFit(dims)
    ensures product as int == Product(dims)
  {
    product := 1;
    for i := 0 to |dims|
      invariant product as int == Product(dims[..i])
    {
      assert dims[..i+1][..i] == dims[..i] && 0 <= Product(dims[..i+1]) < TWO_TO_THE_63;
      product := product * dims[i] as Int64;
    }
    assert dims[..|dims|] == dims;
  }

  class UaVariant {
    var impl: Variant

    constructor ()
      ensures impl == NULL_VARIANT
    {
      impl := NULL_VARIANT;
    }

    constructor CopyFrom(other: UaVariant)
      requires Readable(other.impl)
      ensures impl == CopyOf(other.impl)
    {
      impl := CopyOf(other.impl);
    }

    method Clear()
      modifies this
      ensures impl == NULL_VARIANT
    {
      impl := NULL_VARIANT;
    }

    method Assign(other: UaVariant)
      requires Readable(other.impl)
      modifies this
      ensures impl == if other == this then old(impl) else CopyOf(other.impl)
    {
      if other == this {
        return;
      }
      Clear();
      impl := CopyOf(other.impl);
    }

    method SetScalar(t: TypeTag, x: Elem)
      requires ReuseOrRealloc(impl, t, x).Some?
      modifies this
      ensures Some(impl) == ReuseOrRealloc(old(impl), t, x)
    {
      if !impl.data.Null? && impl.typ == Some(t) && |impl.dims| == 0 {
        impl := impl.(data := Elements([x] + impl.data.elems[1..]));
      } else {
        Clear();
        impl := impl.(typ := Some(t), data := Elements([x]));
      }
    }

    method Set1DArray(t: TypeTag, es: seq<Elem>)
      modifies this
      ensures impl == ArrayOf(t, es)
    {
      if !impl.data.Null? {
        Clear();
      }
      if |es| == 0 {
        impl := Variant(Some(t), EmptyArray, 0, []);
        return;
      }
      impl := Variant(Some(t), Elements(es), |es|, []);
    }

    method ApplyMatrixDimensions(dims: seq<Int32Value>)
      modifies this
      ensures impl == if dims == [] then old(impl) else old(impl).(dims := AsUnsigned(dims))
    {
      if |dims| == 0 {
        return;
      }
      var newDimensions := new UInt32[|dims|];
      for i := 0 to |dims|
        invariant newDimensions[..i] == AsUnsigned(dims)[..i]
        invariant impl == old(impl)
      {
        newDimensions[i] := dims[i] % TWO_TO_THE_32;
      }
      impl := impl.(dims := newDimensions[..]);
    }

    method SetMatrix(t: TypeTag, es: seq<Elem>, dims: seq<Int32Value>) returns (status: StatusCode)
      modifies this
      ensures (status, impl) == AfterSetMatrix(old(impl), t, es, dims)
    {
      status := ValidateMatrixDimensions(|es| % TWO_TO_THE_32, dims);
      if status != Good {
        return;
      }
      Set1DArray(t, es);
      ApplyMatrixDimensions(dims);
      assert dims == [] ==> AsUnsigned(dims) == [];
    }

    method GetMatrix(t: TypeTag) returns (status: StatusCode, es: seq<Elem>, dims: seq<Int32Value>)
      requires Readable(impl) && (IsMatrix(impl) ==> ProductsFit(impl.dims))
      ensures (status, es, dims) == ToMatrix(impl, t)
    {
      if !IsMatrix(impl) || impl.typ != Some(t) {
        return BadTypeMismatch, [], [];
      }
      var expectedElements := ProductOf(impl.dims);
      if expectedElements as int != impl.arrayLength {
        return BadInvalidArgument, [], [];
      }
      status, es, dims := Good, [], [];
      if impl.arrayLength > 0 {
        es := impl.data.elems[..impl.arrayLength];
      }
      for i := 0 to |impl.dims|
        invariant dims == AsSigned(impl.dims)[..i]
      {
        dims := dims + [ToInt32(impl.dims[i])];
      }
      assert AsSigned(impl.dims)[..|impl.dims|] == AsSigned(impl.dims);
    }

    /** The number of elements of a matrix, or -1 for anything else and for a matrix whose dimensions do not fit. */
    method NoOfMatrixElements() returns (n: Int32Value)
      requires IsMatrix(impl) ==> ProductsFit(impl.dims)
      ensures !IsMatrix(impl) || Product(impl.dims) != impl.arrayLength ==> n == -1
      ensures IsMatrix(impl) && Product(impl.dims) == impl.arrayLength ==> n == ToInt32(impl.arrayLength)
    {
      if !IsMatrix(impl) {
        return -1;
      }
      var numberOfElements := ProductOf(impl.dims);
      if numberOfElements as int != impl.arrayLength {
        return -1;
      }
      n := ToInt32(numberOfElements as int);
    }

    method GetArray(t: TypeTag) returns (status: StatusCode, es: seq<Elem>)
      requires Readable(impl)
      ensures status == if ToArray(impl, t).Some? then Good else BadDataEncodingInvalid
      ensures es == if ToArray(impl, t).Some? then ToArray(impl, t).value else []
    {
      if IsScalarValue(impl) || impl.typ != Some(t) {
        return BadDataEncodingInvalid, [];
      }
      return Good, if impl.data.Elements? then impl.data.elems[..impl.arrayLength] else [];
    }

    method SetString(x: Elem)
      modifies this
      ensures impl == Scalar(String, x)
    {
      if !impl.data.Null? {
        Clear();
      }
      impl := Variant(Some(String), Elements([x]), 0, []);
    }

    method ChangeType(target: TypeTag, toArray: bool, outside: Outside) returns (status: StatusCode)
      requires Readable(impl) && !ReadsSentinel(impl, target, toArray)
      modifies this
      ensures Some((status, impl)) == AfterChangeType(old(impl), target, toArray, outside)
    {
      if toArray {
        return BadNotSupported;
      }
      if !impl.data.Null? && impl.typ == Some(target) {
        return Good;
      }
      if target.String? {
        SetString(outside.text);
        return Good;
      }
      if !IsNumeric(target) {
        return BadNotSupported;
      }
      match ToSimpleType(impl, target, outside) {
        case Failed(failure) =>
          return failure;
        case Converted(x) =>
          SetScalar(target, x);
          return Good;
      }
    }
  }

  /** For a matrix made by setMatrix the count is the number of elements, and the 64-bit product is safe. */
  lemma MatrixCountIsExact(v: Variant, shape: Shape)
    requires HasShape(v, shape) && shape.MatrixShape?
    ensures IsMatrix(v) && ProductsFit(v.dims)
    ensures Product(v.dims) == v.arrayLength && ToInt32(v.arrayLength) == |shape.es|
  {
    ProductPositive(shape.dims);
    MatrixProductsFit(shape.dims, |shape.es|);
  }
}
