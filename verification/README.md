# Input-tensor construction of the ONNX web runner, in Dafny

The page in `app.js` loads an ONNX model in the browser and runs a single
inference. Before it can call the engine, it turns three form fields into a
tensor feed:

- the shape text (`"1,3,224,224"`);
- the data text (a JSON array, or numbers separated by commas);
- the dtype tag (`"float32"` or `"int32"`).

This project models that pipeline and proves what it does:

- `parseShape` and `parseArray`, with the string operations they are built
  from (`split(',')`, `trim`, the empty-string filter);
- `product`, the left fold of `*` from 1;
- `makeTypedArray`;
- the validation and assembly steps of `runInference` (app.js lines 83-95).
  These demand a shape, compare the data count with the shape product,
  zero-fill when no data is given, and pick the element type.

The code is pure, so the model is made of functions and lemmas:

- `js_text.dfy` (module `JsText`): `trim` (the ECMAScript whitespace and
  line-terminator set), `split` with a one-character separator, and
  `Segments`, the `split(',').map(trim).filter(Boolean)` chain both parsers
  share. Its lemmas give `split` its inverse (`Join`) and give `trim` a
  reference definition. They also show that the segments keep the text's
  left-to-right order.
- `js_values.dfy` (module `JsValues`): JavaScript numbers (finite, NaN,
  ±Infinity), the values `JSON.parse` produces, and `Builtins`. This record
  carries `Number` and `JSON.parse` as function parameters. Every property
  is therefore proved for whatever those built-ins return. The concrete
  scenarios state only the values they need from them.
- `tensor_input.dfy` (module `TensorInput`): the four operations and the
  assembly step, each with its contract. It also holds the lemmas on error
  order, the length invariant (feed length = shape product), zero-fill and
  pass-through of the data.
- `scenarios.dfy` (module `Scenarios`): concrete form contents worked through
  the model (`"1,3,224,224"`, `" , ,"`, `"1, 2, 3"`, `"1,x,3"`, shape `2,2`
  with no data, a bad dtype together with a wrong count, a fractional
  dimension).

Behaviour the code has that a reader might not expect, and that the model
keeps:

- A shape entry only has to be finite and greater than 0, so `1.5` is
  accepted (app.js:27). The message at app.js:27 asks for positive
  numbers. Nothing checks that they are whole.
- A JSON array is returned as it is. Nothing checks that its elements are
  numbers, or even finite (app.js:38).
- JSON that parses to something other than an array (such as `5`) goes
  through the comma path (app.js:38-41).
- The zero-fill is `new Array(needed)`. It throws a `RangeError` when the
  shape product is not a whole number from 0 to 2^32 - 1. The model reports
  this case as `InvalidArrayLength`. So `"1.5"` with no data passes the
  shape check and then fails at the zero-fill. The code has no message of
  its own for this. It is the `RangeError` of `new Array`.
- Errors come in a fixed order: shape text, then data text, then the
  missing shape, then the count mismatch, then the array length, and last
  the dtype.

## Model

| member | source | states |
|---|---|---|
| JsText.IsWhitespace | app.js:23 | the characters `trim` removes: the ECMAScript WhiteSpace and LineTerminator code points (definition; see the `Trim*` lemmas) |
| JsText.TrimStart | app.js:23 | drops the leading whitespace (definition; characterised by `TrimStartSpec`) |
| JsText.TrimEnd | app.js:23 | drops the trailing whitespace (definition; characterised by `TrimEndSpec`) |
| JsText.Trim | app.js:23 | `s.trim()`: both ends, in that order (definition; its reference characterisation is `TrimUnique`, with `TrimIsInfix`, `TrimIdempotent` and `TrimEmptyIffBlank`) |
| JsText.TrimStartSpec | app.js:23 | leading-whitespace removal leaves a suffix that does not start with whitespace, and drops only whitespace |
| JsText.TrimEndSpec | app.js:23 | trailing-whitespace removal leaves a prefix that does not end with whitespace, and drops only whitespace |
| JsText.TrimStartSkips | app.js:23 | a whitespace prefix does not affect leading-whitespace removal |
| JsText.TrimEndSkips | app.js:23 | a whitespace suffix does not affect trailing-whitespace removal |
| JsText.TrimUnique | app.js:23 | reference definition of `trim`: whitespace + core + whitespace trims to the core |
| JsText.TrimClean | app.js:23 | a string with no whitespace at either end is left unchanged by `trim` |
| JsText.TrimIdempotent | app.js:23 | trimming twice is trimming once |
| JsText.TrimEmptyIffBlank | app.js:23 | `trim` yields the empty string exactly when the string is all whitespace |
| JsText.TrimIsInfix | app.js:23 | the trimmed string is a contiguous infix of the original with only whitespace on either side, so each of its characters comes from the original |
| JsText.Split | app.js:23 | `split(',')` always yields at least one piece |
| JsText.SplitPiecesLackSeparator | app.js:23 | no piece of `split` contains the separator |
| JsText.JoinSplit | app.js:23 | joining the pieces with the separator restores the text |
| JsText.SplitJoin | app.js:23 | splitting a join of separator-free pieces gives the pieces back |
| JsText.SplitNoSeparator | app.js:23 | a text without the separator is a single piece |
| JsText.SplitAppend | app.js:23 | `split(a + ',' + b)` is the pieces of `a` followed by the pieces of `b` |
| JsText.TrimAll | app.js:23 | `.map(trim)` keeps the length and trims each piece in place |
| JsText.TrimAllAppend | app.js:23 | `.map(trim)` distributes over concatenation |
| JsText.DropEmpty | app.js:23 | `.filter(Boolean)` keeps only non-empty strings and never lengthens the list |
| JsText.DropEmptyKeepsProperty | app.js:23 | the filter drops elements but never changes one |
| JsText.DropEmptyNoneIff | app.js:23-24 | the filter leaves nothing exactly when every element is empty |
| JsText.DropEmptyAppend | app.js:23 | the filter keeps the order: it distributes over concatenation |
| JsText.DropEmptyNoEmpty | app.js:23 | the filter leaves a list without empty strings unchanged |
| JsText.Segments | app.js:23 | `split(',').map(trim).filter(Boolean)`, the same chain as the `filter((s) => s.length > 0)` at app.js:41 (definition; characterised by the `Segments*` lemmas) |
| JsText.SegmentsAreTrimmedPieces | app.js:23 | every segment is non-empty, already trimmed and comma-free |
| JsText.SegmentsAppend | app.js:23 | segments keep the text's order: those of `a`, then those of `b` |
| JsText.TrimAllBlankIff | app.js:23 | a trimmed piece is empty exactly where the piece was blank |
| JsText.SegmentsEmptyIffBlank | app.js:22-24 | there are no segments exactly when every comma-separated piece is blank |
| JsText.SegmentsOfOnePiece | app.js:23 | a text without commas has at most one segment, its own trim |
| JsText.SegmentsOfCleanPiece | app.js:23 | a clean piece is its own single segment |
| JsText.SegmentsOfJoin | app.js:23 | the segments of comma-joined non-blank pieces are those pieces trimmed, in order |
| JsText.SegmentsOfCleanJoin | app.js:23 | the segments of comma-joined clean pieces are exactly those pieces |
| TensorInput.ValidDim | app.js:27 | the accepted dimension: `Number.isFinite(n) && n > 0` (definition, used by `ParseShape`'s contract) |
| TensorInput.AllValidDims | app.js:25-27 | every entry of the shape is an accepted dimension (definition) |
| TensorInput.ConvertDims | app.js:25-29 | succeeds exactly when every entry converts to a finite number > 0, giving one dimension per entry in order |
| TensorInput.ParseShape | app.js:21-30 | `null` exactly when there is no non-blank segment; on success one positive finite dimension per segment, in order; fails with InvalidShape exactly when some segment is not finite or not > 0 |
| TensorInput.ParseShapeAccepts | app.js:25-29 | converse: segments that all convert to positive numbers give exactly those numbers |
| TensorInput.ConvertDimsAppend | app.js:25-29 | converting two runs of entries one after the other converts their concatenation |
| TensorInput.ParseShapeInOrder | app.js:23-29 | the shape of `a,c` is the shape of `a` followed by the shape of `c` |
| TensorInput.AllValidDimsAppend | app.js:25-27 | a run of entries is valid exactly when both of its parts are |
| TensorInput.ParseShapeOneBadEntry | app.js:25-27 | one bad entry on either side rejects the whole shape text |
| TensorInput.AllSegmentsFinite | app.js:41-42 | every comma-path entry converts to a finite number, the negation of the `some` test (definition, used by `ParseArray`'s contract) |
| TensorInput.AllFinite | app.js:42 | every value is a finite number, the negation of `arr.some((v) => !Number.isFinite(v))` (definition) |
| TensorInput.Numbers | app.js:41 | one JavaScript number value per converted entry, in order |
| TensorInput.ToNumbers | app.js:41 | `.map(Number)` keeps the length and converts each segment in place |
| JsValues.IsJsonArray | app.js:38 | `Array.isArray(JSON.parse(text))`, false when parsing throws (definition, used by `ParseArray`'s contract) |
| TensorInput.ParseArray | app.js:32-46 | empty text gives []; a JSON array is returned unchanged; otherwise one number per segment in order, failing with InvalidData exactly when one is not finite |
| TensorInput.ParseArrayAccepts | app.js:41-45 | converse: on the comma path, segments that all convert to finite numbers give exactly those numbers |
| TensorInput.ProductFrom | app.js:71 | the `reduce((a, b) => a * b, acc)` left fold (definition; `ProductFromScales` relates it to `Product`) |
| TensorInput.Product | app.js:71 | `product(nums)`, the fold from 1 (definition; characterised by `ProductEmpty` and `ProductSnoc`, with `ProductPositive`) |
| TensorInput.ProductFromScales | app.js:71 | folding `*` from `acc` gives `acc` times the product |
| TensorInput.ProductEmpty | app.js:71 | `product([])` is 1 |
| TensorInput.ProductSnoc | app.js:71 | `product(xs ++ [x])` is `product(xs) * x` |
| TensorInput.ProductPositive | app.js:71 | the product of positive dimensions is positive |
| TensorInput.ElementTypeOf | app.js:61-67 | the `switch`: "float32" selects Float32, "int32" selects Int32, anything else none (definition; `MakeTypedArray` states it) |
| TensorInput.MakeTypedArray | app.js:60-69 | succeeds exactly for "float32" and "int32", selecting the matching element type, with one element per input value; any other tag gives UnsupportedDType |
| TensorInput.IsArrayLength | app.js:94 | the lengths `new Array(n)` accepts without a `RangeError`: a whole number from 0 to 2^32 - 1 (definition; used by `AssembleSucceedsIff` and `AssembleZeroFillBadLength`) |
| TensorInput.ZeroFill | app.js:94 | `new Array(n).fill(0)` has n elements, all 0 |
| TensorInput.AssembleInput | app.js:83-95 | a successful feed has the parsed shape, positive dimensions, a supported dtype, and exactly product(shape) elements |
| TensorInput.AssembleShapeErrorFirst | app.js:84 | a rejected shape text is reported first, whatever the data and dtype |
| TensorInput.AssembleDataErrorSecond | app.js:85 | rejected data is reported next, before a missing shape, count or dtype problem |
| TensorInput.AssembleMissingShape | app.js:88 | a shape text whose pieces are all blank is a missing shape |
| TensorInput.AssembleMismatch | app.js:89-92 | non-empty data whose count differs from the product is rejected with both counts, before the dtype is checked |
| TensorInput.AssembleUsesData | app.js:94-95 | data of exactly the product's count becomes the buffer unchanged, with the selected element type |
| TensorInput.AssembleZeroFill | app.js:94-95 | with no data the buffer is all zeros and exactly product(shape) long |
| TensorInput.AssembleZeroFillBadLength | app.js:94 | with no data, a product that is not a valid array length fails with InvalidArrayLength |
| TensorInput.AssembleUnsupportedDType | app.js:95 | with everything else in order, an unknown dtype is the error |
| TensorInput.AssembleSucceedsIff | app.js:83-95 | assembly succeeds exactly when both parsers succeed, a shape is given, the data is empty with a valid zero-fill length or has the product's count, and the dtype is supported |
| Scenarios.SegmentsOfDims | app.js:23 | `"1,3,224,224"` has segments "1", "3", "224", "224" |
| Scenarios.ShapeOfImageBatch | app.js:21-30 | `"1,3,224,224"` parses to [1, 3, 224, 224] |
| Scenarios.ShapeOfBlankText | app.js:22-24 | `""` and `" , ,"` parse to no shape |
| Scenarios.ShapeWithZero | app.js:27 | `"1,0,3"` fails with InvalidShape |
| Scenarios.ShapeWithLetters | app.js:27 | `"a,b"` fails with InvalidShape |
| Scenarios.DataOfJsonArray | app.js:37-38 | `"[1,2,3]"` gives the parsed array |
| Scenarios.SegmentsOfCommaList | app.js:41 | `"1, 2, 3"` has segments "1", "2", "3" |
| Scenarios.DataOfCommaList | app.js:41-45 | `"1, 2, 3"` gives [1, 2, 3] |
| Scenarios.DataWithBadEntry | app.js:33-44 | `"1,x,3"` fails with InvalidData; `""` gives [] |
| Scenarios.DataOfJsonScalar | app.js:37-41 | JSON `5` is not an array and goes through the comma path |
| Scenarios.DataOfJsonUnchecked | app.js:38 | a JSON array holding a string and a nested array is returned unchecked |
| Scenarios.BoolIsUnsupported | app.js:66-67 | dtype "bool" fails with UnsupportedDType |
| Scenarios.ShapeTwoByTwo | app.js:21-30 | `"2,2"` parses to [2, 2], whose product is 4 |
| Scenarios.ZeroFillTwoByTwo | app.js:83-95 | shape `2,2` with no data gives four float32 zeros |
| Scenarios.MismatchBeforeDType | app.js:90-95 | dtype "bool" with three values for shape `2,2` reports the mismatch (3 vs 4) |
| Scenarios.FractionalShapeCannotZeroFill | app.js:84-94 | `"1.5"` is accepted as a shape, but zero-filling for it fails with InvalidArrayLength |

## Left out

- DOM access, event wiring, status text, `alert` and `console.error` (app.js:3-19, 75-77, 118-122, 125): user-interface input and output.
- Model loading, `ort.InferenceSession`, `ort.Tensor` and `session.run` (app.js:48-58, 79-81, 97-98, 102): calls into a foreign library, with asynchronous I/O.
- Input-name resolution (app.js:86): its fallback reads the external session's input names.
- Timing and the output summary (app.js:100-117): wall-clock reads and display formatting.
- `Number` and `JSON.parse` are parameters, not implementations. The model takes any string-to-number and string-to-value function. How JavaScript parses numeric or JSON text is not modelled.
- A throw from `JSON.parse` appears as a single `SyntaxError` outcome. The `catch` at app.js:39 swallows every error alike, so nothing is lost.
- TensorInput.MakeTypedArray: does not model the per-element conversion of `Float32Array`/`Int32Array` (float32 rounding, ToNumber on non-numbers, ToInt32 wrap-around). The typed array keeps the values it was built from and their count. So nothing is said about the values the typed array holds after conversion.
- TensorInput.Product: computes in exact real arithmetic. JavaScript multiplies doubles, which round, can overflow to Infinity and can underflow to 0. With whole dimensions whose product stays below 2^53 the two agree.
- A failure to allocate a very large array or typed array is not modelled.
