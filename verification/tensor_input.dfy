/**
 The input-tensor construction pipeline of app.js: the shape parser, the data
 parser, the shape product, the typed-array factory, and the validation and
 assembly steps of `runInference` that turn the three form fields (shape
 text, data text, dtype tag) into a shape and a typed buffer of matching size.
 */
module TensorInput {
  import opened JsText
  import opened JsValues

  datatype Option<T> = None | Some(value: T)

  /**
   The errors the pipeline raises; each is a thrown `Error` (or, for
   `InvalidArrayLength`, the `RangeError` of `new Array(n)`).
   */
  datatype Error =
    | InvalidShape                              // a shape entry is not a finite number > 0
    | InvalidData                               // a comma-separated data entry is not finite
    | MissingShape                              // no shape entry at all
    | ShapeMismatch(supplied: nat, expected: real)  // data count differs from the shape product
    | InvalidArrayLength                        // zero-fill length is not a valid array length
    | UnsupportedDType                          // dtype is neither "float32" nor "int32"

  datatype Result<T> = Ok(value: T) | Err(error: Error)

  // ---------------------------------------------------------------- shape

  /** `Number.isFinite(n) && !(n <= 0)`: the test every shape entry must pass. */
  predicate ValidDim(n: Num) {
    n.Finite? && n.x > 0.0
  }

  predicate AllValidDims(b: Builtins, parts: seq<string>) {
    forall i :: 0 <= i < |parts| ==> ValidDim(b.number(parts[i]))
  }

  /** `parts.map(p => ...)` of `parseShape`: converts each entry, failing on the first invalid one. */
  function ConvertDims(b: Builtins, parts: seq<string>): (r: Option<seq<real>>)
    ensures r.Some? <==> AllValidDims(b, parts)
    ensures r.Some? ==> |r.value| == |parts|
    ensures r.Some? ==> forall i :: 0 <= i < |parts| ==>
      b.number(parts[i]) == Finite(r.value[i]) && r.value[i] > 0.0
  {
    if parts == [] then Some([])
    else
      var n := b.number(parts[0]);
      if !ValidDim(n) then None
      else
        match ConvertDims(b, parts[1..])
        case None => None
        case Some(rest) => Some([n.x] + rest)
  }

  /**
   `parseShape`: `Ok(None)` is the source's `null` (no shape given);
   `Err(InvalidShape)` is its thrown error.
   */
  function ParseShape(b: Builtins, text: string): (r: Result<Option<seq<real>>>)
    ensures r == Ok(None) <==> Segments(text) == []
    ensures r.Err? <==> Segments(text) != [] && !AllValidDims(b, Segments(text))
    ensures r.Err? ==> r.error == InvalidShape
    ensures r.Ok? && r.value.Some? ==>
      var dims := r.value.value;
      && |dims| == |Segments(text)| > 0
      && forall i :: 0 <= i < |dims| ==>
           b.number(Segments(text)[i]) == Finite(dims[i]) && dims[i] > 0.0
  {
    if text == "" then
      assert Segments(text) == [];
      Ok(None)
    else
      var parts := Segments(text);
      if |parts| == 0 then Ok(None)
      else
        match ConvertDims(b, parts)
        case None => Err(InvalidShape)
        case Some(dims) => Ok(Some(dims))
  }

  /** Conversely, entries that all convert to positive numbers give exactly those numbers. */
  lemma ParseShapeAccepts(b: Builtins, text: string, dims: seq<real>)
    requires Segments(text) != [] && |dims| == |Segments(text)|
    requires forall i :: 0 <= i < |dims| ==> b.number(Segments(text)[i]) == Finite(dims[i]) && dims[i] > 0.0
    ensures ParseShape(b, text) == Ok(Some(dims))
  {
    var parts := Segments(text);
    assert AllValidDims(b, parts);
    var got := ParseShape(b, text).value.value;
    assert |got| == |dims|;
    forall i | 0 <= i < |dims| ensures got[i] == dims[i] {
      assert b.number(parts[i]) == Finite(got[i]);
    }
    assert got == dims;
  }

  /** Converting two runs of entries one after the other converts their concatenation. */
  lemma {:induction false} ConvertDimsAppend(b: Builtins, p: seq<string>, q: seq<string>)
    requires ConvertDims(b, p).Some? && ConvertDims(b, q).Some?
    ensures ConvertDims(b, p + q) == Some(ConvertDims(b, p).value + ConvertDims(b, q).value)
    decreases |p|
  {
    var dq := ConvertDims(b, q).value;
    if p == [] {
      assert p + q == q;
      assert ConvertDims(b, p) == Some([]);
      assert [] + dq == dq;
    } else {
      var pq := p + q;
      assert pq[0] == p[0] && pq[1..] == p[1..] + q;
      var n := b.number(p[0]);
      var rp := ConvertDims(b, p[1..]).value;
      assert ValidDim(n) && ConvertDims(b, p) == Some([n.x] + rp);
      ConvertDimsAppend(b, p[1..], q);
      assert ConvertDims(b, pq[1..]) == Some(rp + dq);
      assert ConvertDims(b, pq) == Some([n.x] + (rp + dq));
      ConsAppend(n.x, rp, dq);
    }
  }

  /** Regrouping one step of `ConvertDimsAppend`, kept out of its larger context. */
  lemma ConsAppend(x: real, a: seq<real>, c: seq<real>)
    ensures [x] + (a + c) == ([x] + a) + c
  {
  }

  /**
   The dimensions come out in the order of the text: parsing `a,c` gives the
   dimensions of `a` followed by those of `c`.
   */
  lemma ParseShapeInOrder(b: Builtins, a: string, c: string, da: seq<real>, dc: seq<real>)
    requires ParseShape(b, a) == Ok(Some(da)) && ParseShape(b, c) == Ok(Some(dc))
    ensures ParseShape(b, a + "," + c) == Ok(Some(da + dc))
  {
    SegmentsAppend(a, c);
    ConvertDimsAppend(b, Segments(a), Segments(c));
  }

  /** Entries are checked one by one: a run of entries is valid only if both of its parts are. */
  lemma AllValidDimsAppend(b: Builtins, p: seq<string>, q: seq<string>)
    ensures AllValidDims(b, p + q) <==> AllValidDims(b, p) && AllValidDims(b, q)
  {
    if AllValidDims(b, p + q) {
      forall i | 0 <= i < |p| ensures ValidDim(b.number(p[i])) {
        assert (p + q)[i] == p[i];
      }
      forall i | 0 <= i < |q| ensures ValidDim(b.number(q[i])) {
        assert (p + q)[|p| + i] == q[i];
      }
    }
  }

  /** One bad entry anywhere rejects the whole shape, whatever the other entries are. */
  lemma ParseShapeOneBadEntry(b: Builtins, a: string, c: string)
    requires ParseShape(b, a).Err?
    ensures ParseShape(b, a + "," + c) == Err(InvalidShape)
    ensures ParseShape(b, c + "," + a) == Err(InvalidShape)
  {
    SegmentsAppend(a, c);
    SegmentsAppend(c, a);
    AllValidDimsAppend(b, Segments(a), Segments(c));
    AllValidDimsAppend(b, Segments(c), Segments(a));
  }

  // ----------------------------------------------------------------- data

  /** `.map(Number)` of the comma path. */
  function ToNumbers(b: Builtins, parts: seq<string>): (r: seq<Value>)
    ensures |r| == |parts|
    ensures forall i :: 0 <= i < |parts| ==> r[i] == Number(b.number(parts[i]))
  {
    if parts == [] then [] else [Number(b.number(parts[0]))] + ToNumbers(b, parts[1..])
  }

  /** `!arr.some((v) => !Number.isFinite(v))`. */
  predicate AllFinite(vs: seq<Value>) {
    forall i :: 0 <= i < |vs| ==> vs[i].Number? && vs[i].n.Finite?
  }

  predicate AllSegmentsFinite(b: Builtins, parts: seq<string>) {
    forall i :: 0 <= i < |parts| ==> b.number(parts[i]).Finite?
  }

  /**
   `parseArray`: empty text gives no data; a JSON array is returned as it
   is; anything else goes through the comma path, which rejects a
   non-finite entry.
   */
  function ParseArray(b: Builtins, text: string): (r: Result<seq<Value>>)
    ensures text == "" ==> r == Ok([])
    ensures text != "" && IsJsonArray(b.jsonParse(text)) ==> r == Ok(b.jsonParse(text).v.items)
    ensures text != "" && !IsJsonArray(b.jsonParse(text)) ==>
      var parts := Segments(text);
      && (r.Ok? <==> AllSegmentsFinite(b, parts))
      && (r.Err? ==> r.error == InvalidData)
      && (r.Ok? ==> |r.value| == |parts|)
      && (r.Ok? ==> forall i :: 0 <= i < |parts| ==> r.value[i] == Number(b.number(parts[i])))
  {
    if text == "" then Ok([])
    else
      var maybe := b.jsonParse(text);
      if IsJsonArray(maybe) then Ok(maybe.v.items)
      else
        var arr := ToNumbers(b, Segments(text));
        if !AllFinite(arr) then Err(InvalidData) else Ok(arr)
  }

  /** The finite numbers `xs` as JavaScript values. */
  function Numbers(xs: seq<real>): (r: seq<Value>)
    ensures |r| == |xs| && forall i :: 0 <= i < |xs| ==> r[i] == Number(Finite(xs[i]))
  {
    if xs == [] then [] else [Number(Finite(xs[0]))] + Numbers(xs[1..])
  }

  /** Conversely, on the comma path, entries that all convert to finite numbers give exactly those numbers. */
  lemma ParseArrayAccepts(b: Builtins, text: string, xs: seq<real>)
    requires text != "" && !IsJsonArray(b.jsonParse(text))
    requires |xs| == |Segments(text)|
    requires forall i :: 0 <= i < |xs| ==> b.number(Segments(text)[i]) == Finite(xs[i])
    ensures ParseArray(b, text) == Ok(Numbers(xs))
  {
    var parts := Segments(text);
    assert AllSegmentsFinite(b, parts);
    var got := ParseArray(b, text).value;
    assert |got| == |xs|;
    forall i | 0 <= i < |xs| ensures got[i] == Numbers(xs)[i] {
      assert got[i] == Number(b.number(parts[i]));
    }
    assert got == Numbers(xs);
  }

  // -------------------------------------------------------------- product

  /** `nums.reduce((a, b) => a * b, acc)`: a left fold of multiplication. */
  function ProductFrom(acc: real, nums: seq<real>): real
    decreases |nums|
  {
    if nums == [] then acc else ProductFrom(acc * nums[0], nums[1..])
  }

  /** `product`: the fold started from 1. */
  function Product(nums: seq<real>): real {
    ProductFrom(1.0, nums)
  }

  /** Folding from `acc` scales the plain product by `acc`. */
  lemma {:induction false} ProductFromScales(acc: real, nums: seq<real>)
    ensures ProductFrom(acc, nums) == acc * Product(nums)
    decreases |nums|
  {
    if nums != [] {
      ProductFromScales(acc * nums[0], nums[1..]);
      ProductFromScales(nums[0], nums[1..]);
      assert ProductFrom(1.0, nums) == ProductFrom(nums[0], nums[1..]);
    }
  }

  /** The product of no dimensions is 1. */
  lemma ProductEmpty()
    ensures Product([]) == 1.0
  {
  }

  /** Appending a dimension multiplies the product by it. */
  lemma {:induction false} ProductSnoc(nums: seq<real>, x: real)
    ensures Product(nums + [x]) == Product(nums) * x
    decreases |nums|
  {
    if nums == [] {
      assert nums + [x] == [x];
      assert [x][1..] == [];
      assert Product([x]) == ProductFrom(1.0 * x, []) == 1.0 * x;
    } else {
      var rest := nums[1..];
      assert (nums + [x])[0] == nums[0] && (nums + [x])[1..] == rest + [x];
      ProductSnoc(rest, x);
      ProductFromScales(nums[0], rest + [x]);
      ProductFromScales(nums[0], rest);
    }
  }

  /** A product of positive dimensions is positive. */
  lemma {:induction false} ProductPositive(nums: seq<real>)
    requires forall i :: 0 <= i < |nums| ==> nums[i] > 0.0
    ensures Product(nums) > 0.0
    decreases |nums|
  {
    if nums != [] {
      ProductPositive(nums[1..]);
      ProductFromScales(nums[0], nums[1..]);
    }
  }

  // ---------------------------------------------------------- typed array

  datatype ElementType = Float32 | Int32

  /**
   A typed array of the given element type built from `elements`; the
   per-element conversion to a 32-bit float or integer is not modelled, so
   the elements are kept as the values handed to the constructor.
   */
  datatype TypedArray = TypedArray(elementType: ElementType, elements: seq<Value>)

  /** The `switch (dtype)` of `makeTypedArray`. */
  function ElementTypeOf(dtype: string): Option<ElementType> {
    if dtype == "float32" then Some(Float32)
    else if dtype == "int32" then Some(Int32)
    else None
  }

  /** `makeTypedArray`: one element per value, for the two supported tags only. */
  function MakeTypedArray(dtype: string, data: seq<Value>): (r: Result<TypedArray>)
    ensures r.Ok? <==> dtype == "float32" || dtype == "int32"
    ensures r.Err? ==> r.error == UnsupportedDType
    ensures r.Ok? ==> |r.value.elements| == |data| && r.value.elements == data
    ensures r.Ok? ==> (r.value.elementType == Float32 <==> dtype == "float32")
  {
    match ElementTypeOf(dtype)
    case None => Err(UnsupportedDType)
    case Some(t) => Ok(TypedArray(t, data))
  }

  // ------------------------------------------------------------- assembly

  /** The length `new Array(n)` accepts: a whole number from 0 to 2^32 - 1. */
  predicate IsArrayLength(n: real) {
    n.Floor as real == n && 0.0 <= n <= 4294967295.0
  }

  /** `new Array(n).fill(0)`. */
  function ZeroFill(n: nat): (r: seq<Value>)
    ensures |r| == n
    ensures forall i :: 0 <= i < n ==> r[i] == Number(Finite(0.0))
  {
    seq(n, _ => Number(Finite(0.0)))
  }

  /** What `runInference` hands to the tensor constructor: the shape and the typed buffer. */
  datatype Feed = Feed(shape: seq<real>, tensor: TypedArray)

  /**
   Lines 83-95 of `runInference`: parse the shape, parse the data, demand a
   shape, check the data count against the shape product, zero-fill when no
   data is given, and build the typed array.
   */
  function AssembleInput(b: Builtins, dtype: string, shapeText: string, dataText: string): (r: Result<Feed>)
    ensures r.Ok? ==> ParseShape(b, shapeText) == Ok(Some(r.value.shape))
    ensures r.Ok? ==> |r.value.tensor.elements| as real == Product(r.value.shape)
    ensures r.Ok? ==> forall i :: 0 <= i < |r.value.shape| ==> r.value.shape[i] > 0.0
    ensures r.Ok? ==> dtype == "float32" || dtype == "int32"
  {
    match ParseShape(b, shapeText)
    case Err(e) => Err(e)
    case Ok(shape) =>
      match ParseArray(b, dataText)
      case Err(e) => Err(e)
      case Ok(data) =>
        if shape.None? then Err(MissingShape)
        else
          var needed := Product(shape.value);
          if |data| != 0 && |data| as real != needed then Err(ShapeMismatch(|data|, needed))
          else if |data| == 0 && !IsArrayLength(needed) then Err(InvalidArrayLength)
          else
            var feedData := if |data| != 0 then data else ZeroFill(needed.Floor);
            match MakeTypedArray(dtype, feedData)
            case Err(e) => Err(e)
            case Ok(typed) => Ok(Feed(shape.value, typed))
  }

  // ------------------------------------------------- assembly: properties

  /** A shape the parser rejects is reported first, whatever the data and dtype. */
  lemma AssembleShapeErrorFirst(b: Builtins, dtype: string, shapeText: string, dataText: string)
    requires ParseShape(b, shapeText).Err?
    ensures AssembleInput(b, dtype, shapeText, dataText) == Err(InvalidShape)
  {
  }

  /** Data the parser rejects is reported next, before a missing shape or any count or dtype problem. */
  lemma AssembleDataErrorSecond(b: Builtins, dtype: string, shapeText: string, dataText: string)
    requires ParseShape(b, shapeText).Ok? && ParseArray(b, dataText).Err?
    ensures AssembleInput(b, dtype, shapeText, dataText) == Err(InvalidData)
  {
    assert dataText != "" && !IsJsonArray(b.jsonParse(dataText));
  }

  /** A shape text with no non-blank entry is a missing shape, once the data parses. */
  lemma AssembleMissingShape(b: Builtins, dtype: string, shapeText: string, dataText: string)
    requires AllBlank(Split(shapeText, ',')) && ParseArray(b, dataText).Ok?
    ensures AssembleInput(b, dtype, shapeText, dataText) == Err(MissingShape)
  {
    SegmentsEmptyIffBlank(shapeText);
  }

  /**
   Supplied data whose count differs from the shape product is rejected with
   both counts, before the dtype is looked at.
   */
  lemma AssembleMismatch(b: Builtins, dtype: string, shapeText: string, dataText: string,
                         dims: seq<real>, data: seq<Value>)
    requires ParseShape(b, shapeText) == Ok(Some(dims)) && ParseArray(b, dataText) == Ok(data)
    requires |data| != 0 && |data| as real != Product(dims)
    ensures AssembleInput(b, dtype, shapeText, dataText) == Err(ShapeMismatch(|data|, Product(dims)))
  {
  }

  /** Supplied data of exactly the product's count becomes the buffer, unchanged and in order. */
  lemma AssembleUsesData(b: Builtins, dtype: string, shapeText: string, dataText: string,
                         dims: seq<real>, data: seq<Value>)
    requires ParseShape(b, shapeText) == Ok(Some(dims)) && ParseArray(b, dataText) == Ok(data)
    requires |data| != 0 && |data| as real == Product(dims)
    requires ElementTypeOf(dtype).Some?
    ensures AssembleInput(b, dtype, shapeText, dataText) ==
      Ok(Feed(dims, TypedArray(ElementTypeOf(dtype).value, data)))
  {
  }

  /** Without data the buffer is all zeros, exactly as long as the shape product. */
  lemma AssembleZeroFill(b: Builtins, dtype: string, shapeText: string, dataText: string, dims: seq<real>)
    requires ParseShape(b, shapeText) == Ok(Some(dims)) && ParseArray(b, dataText) == Ok([])
    requires IsArrayLength(Product(dims)) && ElementTypeOf(dtype).Some?
    ensures var r := AssembleInput(b, dtype, shapeText, dataText);
      && r.Ok? && r.value.shape == dims
      && |r.value.tensor.elements| as real == Product(dims)
      && forall i :: 0 <= i < |r.value.tensor.elements| ==> r.value.tensor.elements[i] == Number(Finite(0.0))
  {
  }

  /**
   Without data, a shape product that is not a valid array length (a
   fractional entry such as `1.5`, or a product above 2^32 - 1) makes the
   zero-fill throw.
   */
  lemma AssembleZeroFillBadLength(b: Builtins, dtype: string, shapeText: string, dataText: string,
                                  dims: seq<real>)
    requires ParseShape(b, shapeText) == Ok(Some(dims)) && ParseArray(b, dataText) == Ok([])
    requires !IsArrayLength(Product(dims))
    ensures AssembleInput(b, dtype, shapeText, dataText) == Err(InvalidArrayLength)
  {
  }

  /** The dtype is checked last: with everything else in order, an unknown tag is the error. */
  lemma AssembleUnsupportedDType(b: Builtins, dtype: string, shapeText: string, dataText: string,
                                 dims: seq<real>, data: seq<Value>)
    requires ParseShape(b, shapeText) == Ok(Some(dims)) && ParseArray(b, dataText) == Ok(data)
    requires if |data| == 0 then IsArrayLength(Product(dims)) else |data| as real == Product(dims)
    requires ElementTypeOf(dtype).None?
    ensures AssembleInput(b, dtype, shapeText, dataText) == Err(UnsupportedDType)
  {
  }

  /**
   Exactly when assembly succeeds: both parsers succeed, a shape is given,
   the data is either empty (and the product a valid array length) or of
   the product's count, and the dtype is supported.
   */
  lemma AssembleSucceedsIff(b: Builtins, dtype: string, shapeText: string, dataText: string)
    ensures AssembleInput(b, dtype, shapeText, dataText).Ok? <==>
      && ParseShape(b, shapeText).Ok? && ParseShape(b, shapeText).value.Some?
      && ParseArray(b, dataText).Ok?
      && (var needed := Product(ParseShape(b, shapeText).value.value);
          var data := ParseArray(b, dataText).value;
          if |data| == 0 then IsArrayLength(needed) else |data| as real == needed)
      && (dtype == "float32" || dtype == "int32")
  {
  }
}
