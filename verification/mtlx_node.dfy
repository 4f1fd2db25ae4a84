/** Value parsing and token-parameter remapping for MaterialX-defined nodes
    (rprUsd/materialNodes/mtlxNode.cpp). */
module MtlxNode {
  import opened Wrappers

  /** `ParseMtlxBoolValue`: only the exact strings `true` and `false` are
      booleans; anything else leaves the value empty. */
  function ParseBool(s: string): (r: Option<bool>)
    ensures r.Some? <==> s == "true" || s == "false"
    ensures r.Some? ==> (r.value <==> s == "true")
  {
    if s == "true" then Some(true)
    else if s == "false" then Some(false)
    else None
  }

  /** The delimiters `TfStringTokenize` is given for vector values. */
  const VecDelimiters: set<char> := {',', ' ', '\t'}

  /** `TfStringTokenize`: the maximal runs of non-delimiter characters;
      `current` is the run being read. */
  function Tokenize(s: string, delims: set<char>, current: string): (r: seq<string>)
    ensures forall k :: 0 <= k < |r| ==> |r[k]| > 0
    ensures current != "" ==> |r| > 0
    decreases |s|
  {
    if |s| == 0 then (if current == "" then [] else [current])
    else if s[0] in delims then
      (if current == "" then Tokenize(s[1..], delims, "") else [current] + Tokenize(s[1..], delims, ""))
    else Tokenize(s[1..], delims, current + [s[0]])
  }

  predicate IsToken(t: string, delims: set<char>) {
    |t| > 0 && forall c :: c in t ==> c !in delims
  }

  /** Tokens joined with one separator. */
  function Join(tokens: seq<string>, sep: char): string {
    if |tokens| == 0 then ""
    else if |tokens| == 1 then tokens[0]
    else tokens[0] + [sep] + Join(tokens[1..], sep)
  }

  /** Reading a delimiter-free run extends the current token. */
  lemma {:induction false} TokenizeRun(t: string, rest: string, delims: set<char>, current: string)
    requires forall c :: c in t ==> c !in delims
    ensures Tokenize(t + rest, delims, current) == Tokenize(rest, delims, current + t)
    decreases |t|
  {
    if |t| == 0 {
      assert t + rest == rest && current + t == current;
    } else {
      assert t[0] in t;
      assert (t + rest)[0] == t[0] && (t + rest)[1..] == t[1..] + rest;
      forall c | c in t[1..] ensures c !in delims {
        assert c in t;
      }
      TokenizeRun(t[1..], rest, delims, current + [t[0]]);
      assert current + [t[0]] + t[1..] == current + t;
    }
  }

  /** Tokenizing re-splits joined tokens: the inverse of `Join`. */
  lemma {:induction false} TokenizeJoin(tokens: seq<string>, sep: char, delims: set<char>)
    requires sep in delims
    requires forall k :: 0 <= k < |tokens| ==> IsToken(tokens[k], delims)
    ensures Tokenize(Join(tokens, sep), delims, "") == tokens
  {
    if |tokens| == 1 {
      TokenizeRun(tokens[0], "", delims, "");
      assert tokens[0] + "" == tokens[0];
      assert "" + tokens[0] == tokens[0];
    } else if |tokens| > 1 {
      var rest := [sep] + Join(tokens[1..], sep);
      assert Join(tokens, sep) == tokens[0] + rest;
      TokenizeRun(tokens[0], rest, delims, "");
      assert "" + tokens[0] == tokens[0];
      assert rest[0] == sep && rest[1..] == Join(tokens[1..], sep);
      TokenizeJoin(tokens[1..], sep, delims);
      assert tokens == [tokens[0]] + tokens[1..];
    }
  }

  /** `ParseMtlxVecValue`: the value is set only when the string has
      exactly `dimension` components and each of them parses as a float
      (`parseFloat` stands for `std::stof`). */
  function ParseVec(s: string, dimension: nat, parseFloat: string -> Option<real>): (r: Option<seq<real>>)
    ensures r.Some? ==> |Tokenize(s, VecDelimiters, "")| == dimension && |r.value| == dimension
    ensures |Tokenize(s, VecDelimiters, "")| != dimension ==> r.None?
    ensures r.Some? ==> forall k :: 0 <= k < dimension ==> parseFloat(Tokenize(s, VecDelimiters, "")[k]) == Some(r.value[k])
  {
    var tokens := Tokenize(s, VecDelimiters, "");
    if |tokens| != dimension then None else ParseAll(tokens, parseFloat)
  }

  function ParseAll(tokens: seq<string>, parseFloat: string -> Option<real>): (r: Option<seq<real>>)
    ensures r.Some? ==> |r.value| == |tokens| && forall k :: 0 <= k < |tokens| ==> parseFloat(tokens[k]) == Some(r.value[k])
    ensures r.None? ==> exists k :: 0 <= k < |tokens| && parseFloat(tokens[k]).None?
  {
    if |tokens| == 0 then Some([])
    else
      var n := |tokens| - 1;
      match (ParseAll(tokens[..n], parseFloat), parseFloat(tokens[n]))
      case (Some(front), Some(x)) => Some(front + [x])
      case (None, _) =>
        var k :| 0 <= k < n && parseFloat(tokens[..n][k]).None?;
        assert tokens[..n][k] == tokens[k];
        None
      case (_, None) => None
  }

  datatype ElementType =
    | Invalid | Boolean | Color3 | Float | Angle | Integer | VolumeShader | SurfaceShader
    | DisplacementShader | Vector3 | Vector2 | String | Token | Normal

  /** `RprUsd_GetMaterialNodeElementType` for a typed element: the MaterialX
      type name is looked up, and a string with an `enum` attribute is a
      token. */
  function ElementTypeOf(typeName: string, enumAttribute: string): (t: ElementType)
    ensures typeName == "string" ==> (t == Token <==> enumAttribute != "") && (t == String <==> enumAttribute == "")
    ensures typeName != "string" ==> t != Token && t != String
    ensures t == Invalid <==>
      typeName !in {"boolean", "color3", "float", "angle", "integer", "volumeshader", "surfaceshader",
                    "displacementshader", "vector3", "vector2", "string"}
    ensures t != Normal
  {
    if typeName == "boolean" then Boolean
    else if typeName == "color3" then Color3
    else if typeName == "float" then Float
    else if typeName == "angle" then Angle
    else if typeName == "integer" then Integer
    else if typeName == "volumeshader" then VolumeShader
    else if typeName == "surfaceshader" then SurfaceShader
    else if typeName == "displacementshader" then DisplacementShader
    else if typeName == "vector3" then Vector3
    else if typeName == "vector2" then Vector2
    else if typeName == "string" then (if enumAttribute != "" then Token else String)
    else Invalid
  }

  /** The overload for inputs: a world-space normal default makes the input
      a normal, whatever its type name. */
  function InputTypeOf(typeName: string, enumAttribute: string, defaultGeomProp: string): (t: ElementType)
    ensures defaultGeomProp == "Nworld" <==> t == Normal
    ensures defaultGeomProp != "Nworld" ==> t == ElementTypeOf(typeName, enumAttribute)
  {
    if defaultGeomProp == "Nworld" then Normal else ElementTypeOf(typeName, enumAttribute)
  }

  datatype TokenParameterMapping<T> = TokenParameterMapping(rprInput: Option<T>, values: seq<T>)

  /** `GetTokenParameterMapping`, with the node-input and mode lookups as
      tables. The loop stops at the first token without an RPR mode; the
      default index is the last position holding the default value. */
  method GetTokenParameterMapping<T>(inputTable: map<string, T>, modeTable: map<string, T>,
                                     inputId: string, defaultValue: string, tokenValues: seq<string>)
    returns (isValid: bool, defaultIndex: int, mapping: TokenParameterMapping<T>)
    ensures isValid <==>
      inputId in inputTable && (forall k :: 0 <= k < |tokenValues| ==> tokenValues[k] in modeTable) &&
      (exists k :: 0 <= k < |tokenValues| && tokenValues[k] == defaultValue)
    ensures isValid ==> mapping.rprInput == Some(inputTable[inputId])
    ensures isValid ==> (|mapping.values| == |tokenValues| &&
      forall k :: 0 <= k < |tokenValues| ==> mapping.values[k] == modeTable[tokenValues[k]])
    ensures isValid ==> (0 <= defaultIndex < |tokenValues| && tokenValues[defaultIndex] == defaultValue &&
      forall k :: defaultIndex < k < |tokenValues| ==> tokenValues[k] != defaultValue)
    ensures inputId !in inputTable ==> defaultIndex == -1
  {
    defaultIndex := -1;
    isValid := true;
    mapping := TokenParameterMapping(None, []);
    if inputId in inputTable {
      mapping := mapping.(rprInput := Some(inputTable[inputId]));
      var i := 0;
      while i < |tokenValues| && isValid
        invariant 0 <= i <= |tokenValues|
        invariant isValid ==> |mapping.values| == i
        invariant isValid ==> forall k :: 0 <= k < i ==> tokenValues[k] in modeTable && mapping.values[k] == modeTable[tokenValues[k]]
        invariant isValid ==> -1 <= defaultIndex < i
        invariant isValid && defaultIndex >= 0 ==> tokenValues[defaultIndex] == defaultValue
        invariant isValid ==> forall k :: defaultIndex < k < i ==> tokenValues[k] != defaultValue
        invariant !isValid ==> i < |tokenValues| && tokenValues[i] !in modeTable
        invariant mapping.rprInput == Some(inputTable[inputId])
        decreases |tokenValues| - i, if isValid then 1 else 0
      {
        if tokenValues[i] !in modeTable {
          isValid := false;
        } else {
          mapping := mapping.(values := mapping.values + [modeTable[tokenValues[i]]]);
          if tokenValues[i] == defaultValue {
            defaultIndex := i;
          }
          i := i + 1;
        }
      }
    } else {
      isValid := false;
    }
    if defaultIndex == -1 {
      isValid := false;
    }
  }

  /** A parameter value as `VtValue` holds it. */
  datatype Value = EmptyValue | IntValue(i: int) | OtherValue

  /** `RemapTokenInput` as written: it checks the index against the mapped
      values but then passes on the index itself. */
  function RemapTokenInputAsWritten<T>(input: Value, mapping: TokenParameterMapping<T>): (r: Option<int>)
    ensures r.Some? <==> input.IntValue? && 0 <= input.i < |mapping.values|
    ensures r.Some? ==> r.value == input.i
  {
    if !input.IntValue? then None
    else if input.i < 0 || input.i >= |mapping.values| then None
    else Some(input.i)
  }

  /** The remapping evidently intended: the RPR mode of the selected
      token. */
  function RemapTokenInput<T>(input: Value, mapping: TokenParameterMapping<T>): (r: Option<T>)
    ensures r.Some? <==> input.IntValue? && 0 <= input.i < |mapping.values|
    ensures r.Some? ==> r.value in mapping.values
  {
    if !input.IntValue? then None
    else if input.i < 0 || input.i >= |mapping.values| then None
    else Some(mapping.values[input.i])
  }

  /** The two agree exactly when every selectable mode's value equals its
      position, which RPR's mode constants do not: with the modes {1, 2}
      (the values of the first two uber IOR modes) selecting entry 0 sends 0
      instead of 1. */
  lemma RemapAsWrittenSendsIndex()
    ensures var m := TokenParameterMapping(None, [1, 2]);
      RemapTokenInputAsWritten(IntValue(0), m) == Some(0) && RemapTokenInput(IntValue(0), m) == Some(1)
  {
  }

  /** Both accept the same inputs, and the intended one yields the mode at
      the position the written one yields. */
  lemma RemapAgreesOnAcceptance<T>(input: Value, mapping: TokenParameterMapping<T>)
    ensures RemapTokenInputAsWritten(input, mapping).Some? <==> RemapTokenInput(input, mapping).Some?
    ensures RemapTokenInput(input, mapping).Some? ==>
      RemapTokenInput(input, mapping).value == mapping.values[RemapTokenInputAsWritten(input, mapping).value]
  {
  }
}
