/**
 Worked examples of the pipeline, proved on concrete form contents.
 Each lemma fixes only the values `Number` and `JSON.parse` return on the
 texts involved, and holds for any built-ins that agree on those.
 */
module Scenarios {
  import opened JsText
  import opened JsValues
  import opened TensorInput

  lemma SegmentsOfDims()
    ensures Segments("1,3,224,224") == ["1", "3", "224", "224"]
  {
    var parts := ["1", "3", "224", "224"];
    assert Join(parts, ',') == "1,3,224,224";
    assert CleanPiece(parts[0]) && CleanPiece(parts[1]) && CleanPiece(parts[2]) && CleanPiece(parts[3]);
    SegmentsOfCleanJoin(parts);
  }

  /**
   `"1,3,224,224"` is the shape [1, 3, 224, 224]. The text is a parameter
   fixed by the precondition, which keeps the solver from unfolding the
   parser on the literal.
   */
  lemma ShapeOfImageBatch(b: Builtins, text: string)
    requires text == "1,3,224,224"
    requires b.number("1") == Finite(1.0) && b.number("3") == Finite(3.0)
    requires b.number("224") == Finite(224.0)
    ensures ParseShape(b, text) == Ok(Some([1.0, 3.0, 224.0, 224.0]))
  {
    var segs := ["1", "3", "224", "224"];
    var dims := [1.0, 3.0, 224.0, 224.0];
    assert Segments(text) == segs by { SegmentsOfDims(); }
    assert forall i :: 0 <= i < |dims| ==> b.number(segs[i]) == Finite(dims[i]) && dims[i] > 0.0 by {
      assert segs[0] == "1" && segs[1] == "3" && segs[2] == "224" && segs[3] == "224";
    }
    ParseShapeAccepts(b, text, dims);
  }

  /** An empty shape field, or one holding only commas and blanks, is no shape at all. */
  lemma ShapeOfBlankText(b: Builtins)
    ensures ParseShape(b, "") == Ok(None)
    ensures ParseShape(b, " , ,") == Ok(None)
  {
    var pieces := [" ", " ", ""];
    assert Join(pieces, ',') == " , ,";
    SplitJoin(pieces, ',');
    SegmentsEmptyIffBlank(" , ,");
  }

  /** A zero entry rejects the shape. */
  lemma ShapeWithZero(b: Builtins)
    requires b.number("0") == Finite(0.0)
    ensures ParseShape(b, "1,0,3") == Err(InvalidShape)
  {
    var parts := ["1", "0", "3"];
    assert Join(parts, ',') == "1,0,3";
    assert CleanPiece(parts[0]) && CleanPiece(parts[1]) && CleanPiece(parts[2]);
    SegmentsOfCleanJoin(parts);
    assert !ValidDim(b.number(Segments("1,0,3")[1]));
  }

  /** An entry that is not a number rejects the shape. */
  lemma ShapeWithLetters(b: Builtins)
    requires b.number("a") == NaN
    ensures ParseShape(b, "a,b") == Err(InvalidShape)
  {
    var parts := ["a", "b"];
    assert Join(parts, ',') == "a,b";
    assert CleanPiece(parts[0]) && CleanPiece(parts[1]);
    SegmentsOfCleanJoin(parts);
    assert !ValidDim(b.number(Segments("a,b")[0]));
  }

  /** A JSON array is taken as it is. */
  lemma DataOfJsonArray(b: Builtins)
    requires b.jsonParse("[1,2,3]") == Parsed(Array([Number(Finite(1.0)), Number(Finite(2.0)), Number(Finite(3.0))]))
    ensures ParseArray(b, "[1,2,3]") == Ok([Number(Finite(1.0)), Number(Finite(2.0)), Number(Finite(3.0))])
  {
  }

  lemma SegmentsOfCommaList()
    ensures Segments("1, 2, 3") == ["1", "2", "3"]
  {
    var pieces := ["1", " 2", " 3"];
    assert Join(pieces, ',') == "1, 2, 3";
    TrimClean("1");
    assert Trim(" 2") == "2" by { assert TrimStart(" 2") == TrimStart("2"); TrimClean("2"); }
    assert Trim(" 3") == "3" by { assert TrimStart(" 3") == TrimStart("3"); TrimClean("3"); }
    SegmentsOfJoin(pieces);
  }

  /**
   Comma-separated numbers, blanks around them ignored, are converted one by
   one. As in `ShapeOfImageBatch`, the text is a parameter fixed by the
   precondition.
   */
  lemma DataOfCommaList(b: Builtins, text: string)
    requires text == "1, 2, 3"
    requires b.jsonParse(text) == SyntaxError
    requires b.number("1") == Finite(1.0) && b.number("2") == Finite(2.0) && b.number("3") == Finite(3.0)
    ensures ParseArray(b, text) == Ok([Number(Finite(1.0)), Number(Finite(2.0)), Number(Finite(3.0))])
  {
    assert Segments(text) == ["1", "2", "3"] by { SegmentsOfCommaList(); }
    ParseArrayAccepts(b, text, [1.0, 2.0, 3.0]);
    assert Numbers([1.0, 2.0, 3.0]) == [Number(Finite(1.0)), Number(Finite(2.0)), Number(Finite(3.0))] by {
      var ns := Numbers([1.0, 2.0, 3.0]);
      assert ns[0] == Number(Finite(1.0)) && ns[1] == Number(Finite(2.0)) && ns[2] == Number(Finite(3.0));
    }
  }

  /** A comma-separated entry that is not a number rejects the data; an empty field is no data. */
  lemma DataWithBadEntry(b: Builtins)
    requires b.jsonParse("1,x,3") == SyntaxError && b.number("x") == NaN
    ensures ParseArray(b, "1,x,3") == Err(InvalidData)
    ensures ParseArray(b, "") == Ok([])
  {
    var parts := ["1", "x", "3"];
    assert Join(parts, ',') == "1,x,3";
    assert CleanPiece(parts[0]) && CleanPiece(parts[1]) && CleanPiece(parts[2]);
    SegmentsOfCleanJoin(parts);
    assert !b.number(Segments("1,x,3")[1]).Finite?;
  }

  /** JSON that is not an array (here the number 5) goes through the comma path. */
  lemma DataOfJsonScalar(b: Builtins)
    requires b.jsonParse("5") == Parsed(Number(Finite(5.0))) && b.number("5") == Finite(5.0)
    ensures ParseArray(b, "5") == Ok([Number(Finite(5.0))])
  {
    assert CleanPiece("5");
    SegmentsOfCleanPiece("5");
    ParseArrayAccepts(b, "5", [5.0]);
    assert Numbers([5.0])[0] == Number(Finite(5.0));
    assert Numbers([5.0]) == [Number(Finite(5.0))];
  }

  /** Nothing in a JSON array is checked: a string and a nested array pass through. */
  lemma DataOfJsonUnchecked(b: Builtins)
    requires b.jsonParse("[\"a\",[1]]") == Parsed(Array([Str("a"), Array([Number(Finite(1.0))])]))
    ensures ParseArray(b, "[\"a\",[1]]") == Ok([Str("a"), Array([Number(Finite(1.0))])])
  {
  }

  /** Only "float32" and "int32" are accepted by the typed-array factory. */
  lemma BoolIsUnsupported()
    ensures MakeTypedArray("bool", [Number(Finite(1.0)), Number(Finite(0.0))]) == Err(UnsupportedDType)
  {
  }

  lemma ShapeTwoByTwo(b: Builtins)
    requires b.number("2") == Finite(2.0)
    ensures ParseShape(b, "2,2") == Ok(Some([2.0, 2.0]))
    ensures Product([2.0, 2.0]) == 4.0
  {
    var parts := ["2", "2"];
    assert Join(parts, ',') == "2,2";
    assert CleanPiece(parts[0]);
    SegmentsOfCleanJoin(parts);
    ParseShapeAccepts(b, "2,2", [2.0, 2.0]);
  }

  /** Shape 2,2 with no data gives four zeros. */
  lemma ZeroFillTwoByTwo(b: Builtins)
    requires b.number("2") == Finite(2.0)
    ensures AssembleInput(b, "float32", "2,2", "") == Ok(Feed([2.0, 2.0], TypedArray(Float32, ZeroFill(4))))
  {
    ShapeTwoByTwo(b);
    assert ParseArray(b, "") == Ok([]);
    assert (4.0).Floor == 4;
  }

  /** With an unknown dtype and a wrong data count, the count is what is reported. */
  lemma MismatchBeforeDType(b: Builtins)
    requires b.number("2") == Finite(2.0)
    requires b.jsonParse("[1,2,3]") == Parsed(Array([Number(Finite(1.0)), Number(Finite(2.0)), Number(Finite(3.0))]))
    ensures AssembleInput(b, "bool", "2,2", "[1,2,3]") == Err(ShapeMismatch(3, 4.0))
  {
    ShapeTwoByTwo(b);
    DataOfJsonArray(b);
    AssembleMismatch(b, "bool", "2,2", "[1,2,3]", [2.0, 2.0],
      [Number(Finite(1.0)), Number(Finite(2.0)), Number(Finite(3.0))]);
  }

  /** A fractional entry passes the shape check, but zero-filling for it throws. */
  lemma FractionalShapeCannotZeroFill(b: Builtins)
    requires b.number("1.5") == Finite(1.5)
    ensures ParseShape(b, "1.5") == Ok(Some([1.5]))
    ensures AssembleInput(b, "float32", "1.5", "") == Err(InvalidArrayLength)
  {
    assert CleanPiece("1.5");
    SegmentsOfCleanPiece("1.5");
    ParseShapeAccepts(b, "1.5", [1.5]);
    assert Product([1.5]) == 1.5;
    assert (1.5).Floor == 1;
    assert ParseArray(b, "") == Ok([]);
    AssembleZeroFillBadLength(b, "float32", "1.5", "", [1.5]);
  }
}
