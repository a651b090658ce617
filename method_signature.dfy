/**
 * Parsing the `method-signature` of a composite-component attribute the way
 * the arbitrary-name retarget handler does before it creates a method
 * expression: the return type is the text before the first space, the
 * parameter types are the comma-separated, trimmed names between the first
 * `(` and the `)` after it. Type names are resolved through a partial table
 * standing for `Util.getTypeFromString`.
 */
module MethodSignature {
  import opened Wrappers
  import opened JavaStrings

  /** A class `Util.getTypeFromString` can load. */
  datatype JavaType = JavaType(name: String)

  /** The names `Util.getTypeFromString` resolves; a name outside the table is a `ClassNotFoundException`. */
  type TypeTable = map<String, JavaType>

  /** The expected return type and parameter types of a method expression. */
  datatype Signature = Signature(returnType: JavaType, parameters: seq<JavaType>)

  /** What the handler makes of a signature. */
  datatype Parse =
    | NoReturnType                       // no space: logged, nothing is bound
    | UnknownReturnType(typeName: String) // thrown as a `FacesException`
    | UnknownParameter                   // logged, nothing is bound
    | Parsed(signature: Signature)

  /** The trimmed text before the first space of a trimmed signature. */
  function ReturnTypeName(signature: String): (r: String)
    requires ' ' in Trim(signature)
    ensures ' ' !in r
  {
    var s := Trim(signature);
    Trim(s[..IndexOf(s, ' ', 0)])
  }

  /** The text between the first `(` and the first `)` after it, when both are there. */
  function ParameterText(s: String): Option<String> {
    var i := IndexOf(s, '(', 0);
    if i == -1 then None
    else
      var j := IndexOf(s, ')', i + 1);
      if j == -1 then None else Some(s[i + 1..j])
  }

  /** The trimmed parameter type names: none without parentheses or between empty ones, else the pieces of a comma split. */
  function ParameterNames(s: String): (r: seq<String>)
  {
    match ParameterText(s)
    case None => []
    case Some(p) =>
      if |p| == 0 then []
      else TrimAll(Split(p, ','))
  }

  /** Each piece trimmed. */
  function TrimAll(pieces: seq<String>): (r: seq<String>)
    ensures |r| == |pieces| && forall k :: 0 <= k < |pieces| ==> r[k] == Trim(pieces[k])
  {
    seq(|pieces|, k requires 0 <= k < |pieces| => Trim(pieces[k]))
  }

  /** Whether every name in `names` loads. */
  predicate AllLoad(names: seq<String>, types: TypeTable) {
    forall k :: 0 <= k < |names| ==> names[k] in types
  }

  /** The types `names` load as, in order. */
  function TypesOf(names: seq<String>, types: TypeTable): (r: seq<JavaType>)
    requires AllLoad(names, types)
    ensures |r| == |names|
  {
    seq(|names|, k requires 0 <= k < |names| => types[names[k]])
  }

  /**
   * The loop that resolves each parameter type in turn and stops at the first
   * one that does not load.
   */
  method ResolveParameters(names: seq<String>, types: TypeTable) returns (r: Option<seq<JavaType>>)
    ensures r.Some? <==> AllLoad(names, types)
    ensures r.Some? ==> |r.value| == |names| && forall k :: 0 <= k < |names| ==> r.value[k] == types[names[k]]
    ensures r.Some? ==> r.value == TypesOf(names, types)
  {
    var resolved: seq<JavaType> := [];
    var i := 0;
    while i < |names|
      invariant 0 <= i <= |names| && |resolved| == i
      invariant forall k :: 0 <= k < i ==> names[k] in types && resolved[k] == types[names[k]]
    {
      if names[i] !in types {
        return None;
      }
      resolved := resolved + [types[names[i]]];
      i := i + 1;
    }
    assert resolved == TypesOf(names, types);
    return Some(resolved);
  }

  /**
   * What `ArbitraryMethodRegargetHandler.retarget` makes of a signature
   * before it creates the method expression: no return type without a space,
   * a return type that does not load, a parameter type that does not load, or
   * the resolved types.
   */
  function Parsing(signature: String, types: TypeTable): Parse {
    if ' ' !in Trim(signature) then NoReturnType
    else
      var returnName := ReturnTypeName(signature);
      var names := ParameterNames(Trim(signature));
      if returnName !in types then UnknownReturnType(returnName)
      else if !AllLoad(names, types) then UnknownParameter
      else Parsed(Signature(types[returnName], TypesOf(names, types)))
  }

  /**
   * The handler's parsing steps: trim, find the return type before the first
   * space, then resolve the parameter types one by one.
   */
  method ParseSignature(signature: String, types: TypeTable) returns (r: Parse)
    ensures r == Parsing(signature, types)
  {
    var s := Trim(signature);
    var i := IndexOf(s, ' ', 0);
    if i == -1 {
      return NoReturnType;
    }
    var returnName := Trim(s[..i]);
    assert ' ' in s && returnName == ReturnTypeName(signature);
    if returnName !in types {
      return UnknownReturnType(returnName);
    }
    var names := ParameterNames(s);
    var parameters := ResolveParameters(names, types);
    if parameters.None? {
      return UnknownParameter;
    }
    return Parsed(Signature(types[returnName], parameters.value));
  }

  /** A rendered signature whose type names all load parses to exactly those types, in order. */
  lemma ParsingRendered(returnName: String, methodName: String, parameterNames: seq<String>, types: TypeTable)
    requires PlainName(returnName) && ' ' !in returnName && '(' !in methodName
    requires forall k :: 0 <= k < |parameterNames| ==> PlainName(parameterNames[k])
    requires returnName in types && AllLoad(parameterNames, types)
    ensures Parsing(Render(returnName, methodName, parameterNames), types)
            == Parsed(Signature(types[returnName], TypesOf(parameterNames, types)))
  {
    RenderParse(returnName, methodName, parameterNames);
  }

  /** A signature written as `ret name(p1,p2,...)`. */
  function Render(returnName: String, methodName: String, parameterNames: seq<String>): String {
    returnName + [' '] + methodName + ['('] + JoinedNames(parameterNames) + [')']
  }

  /** A type name the handler reads back unchanged: non-blank ends, and none of the signature's punctuation. */
  predicate PlainName(name: String) {
    && name != [] && !IsTrimmed(name[0]) && !IsTrimmed(name[|name| - 1])
    && ',' !in name && '(' !in name && ')' !in name
  }

  /** Splitting joined pieces that hold no separator gives the pieces back. */
  lemma {:induction false} PiecesOfJoin(parts: seq<String>, c: char)
    requires |parts| >= 1 && forall k :: 0 <= k < |parts| ==> c !in parts[k]
    decreases |parts|
    ensures Pieces(Join(parts, c), c) == parts
  {
    var s := Join(parts, c);
    if |parts| == 1 {
      assert IndexOf(s, c, 0) == -1;
    } else {
      var rest := Join(parts[1..], c);
      assert s == parts[0] + [c] + rest;
      assert IndexOf(s, c, 0) == |parts[0]| by {
        assert s[|parts[0]|] == c;
        forall k | 0 <= k < |parts[0]| ensures s[k] != c {
          assert s[k] == parts[0][k];
        }
      }
      assert s[..|parts[0]|] == parts[0];
      assert s[|parts[0]| + 1..] == rest;
      PiecesOfJoin(parts[1..], c);
    }
  }

  /** The joined parameter names of a rendered signature, as written between its parentheses. */
  function JoinedNames(parameterNames: seq<String>): String {
    if parameterNames == [] then [] else Join(parameterNames, ',')
  }

  /**
   * Round trip: the handler reads back, from a rendered signature, the return
   * type name and the parameter type names it was rendered from.
   */
  lemma RenderParse(returnName: String, methodName: String, parameterNames: seq<String>)
    requires PlainName(returnName) && ' ' !in returnName && '(' !in methodName
    requires forall k :: 0 <= k < |parameterNames| ==> PlainName(parameterNames[k])
    ensures ' ' in Trim(Render(returnName, methodName, parameterNames))
    ensures ReturnTypeName(Render(returnName, methodName, parameterNames)) == returnName
    ensures ParameterNames(Trim(Render(returnName, methodName, parameterNames))) == parameterNames
  {
    forall k | 0 <= k < |parameterNames| ensures Trim(parameterNames[k]) == parameterNames[k] {
      TrimNoBlanks(parameterNames[k]);
    }
    RenderParseWritten(returnName, methodName, parameterNames, parameterNames);
  }

  lemma RenderReadsReturnType(returnName: String, methodName: String, parameterNames: seq<String>)
    requires PlainName(returnName) && ' ' !in returnName
    ensures ' ' in Trim(Render(returnName, methodName, parameterNames))
    ensures ReturnTypeName(Render(returnName, methodName, parameterNames)) == returnName
  {
    var s := Render(returnName, methodName, parameterNames);
    RenderTrimmed(returnName, methodName, parameterNames);
    RenderReturnType(returnName, methodName, parameterNames);
    TrimNoBlanks(returnName);
    ReturnTypeNameOf(s, returnName);
  }

  lemma ReturnTypeNameOf(s: String, r: String)
    requires Trim(s) == s && Trim(r) == r && IndexOf(s, ' ', 0) == |r| && s[..|r|] == r
    ensures ' ' in Trim(s) && ReturnTypeName(s) == r
  {
  }

  lemma ParameterNamesOf(s: String, parameterNames: seq<String>, written: seq<String>)
    requires ParameterText(s) == Some(JoinedNames(written))
    requires |JoinedNames(written)| == 0 <==> parameterNames == []
    requires parameterNames != [] ==> TrimAll(Split(JoinedNames(written), ',')) == parameterNames
    ensures ParameterNames(s) == parameterNames
  {
  }

  lemma RenderTrimmed(returnName: String, methodName: String, parameterNames: seq<String>)
    requires PlainName(returnName)
    ensures Trim(Render(returnName, methodName, parameterNames)) == Render(returnName, methodName, parameterNames)
  {
    var s := Render(returnName, methodName, parameterNames);
    assert s[0] == returnName[0];
    TrimNoBlanks(s);
  }

  lemma RenderReturnType(returnName: String, methodName: String, parameterNames: seq<String>)
    requires PlainName(returnName) && ' ' !in returnName
    ensures var s := Render(returnName, methodName, parameterNames);
            IndexOf(s, ' ', 0) == |returnName| && s[..|returnName|] == returnName
  {
    var s := Render(returnName, methodName, parameterNames);
    assert s[|returnName|] == ' ';
    forall k | 0 <= k < |returnName| ensures s[k] == returnName[k] {
    }
    TrimNoBlanks(returnName);
  }

  lemma RenderParameterText(returnName: String, methodName: String, parameterNames: seq<String>)
    requires '(' !in returnName && '(' !in methodName
    requires forall k :: 0 <= k < |parameterNames| ==> ')' !in parameterNames[k]
    ensures ParameterText(Render(returnName, methodName, parameterNames)) == Some(JoinedNames(parameterNames))
  {
    var s := Render(returnName, methodName, parameterNames);
    var joined := JoinedNames(parameterNames);
    var open := |returnName| + 1 + |methodName|;
    assert s == (returnName + [' '] + methodName) + ['('] + joined + [')'];
    assert s[open] == '(';
    forall k | 0 <= k < open ensures s[k] != '(' {
      assert s[k] == (returnName + [' '] + methodName)[k];
    }
    JoinHasNo(parameterNames, ')');
    var close := open + 1 + |joined|;
    assert s[close] == ')';
    forall k | open + 1 <= k < close ensures s[k] != ')' {
      assert s[k] == joined[k - open - 1];
    }
    assert IndexOf(s, '(', 0) == open;
    assert IndexOf(s, ')', open + 1) == close;
    assert s[open + 1..close] == joined;
  }

  /** Splitting non-empty pieces joined by commas, none holding a comma, gives the pieces back. */
  lemma SplitJoined(pieces: seq<String>)
    requires forall k :: 0 <= k < |pieces| ==> pieces[k] != [] && ',' !in pieces[k]
    ensures |JoinedNames(pieces)| == 0 <==> pieces == []
    ensures pieces != [] ==> Split(JoinedNames(pieces), ',') == pieces
  {
    if pieces != [] {
      var joined := JoinedNames(pieces);
      if |pieces| == 1 {
        assert ',' !in joined;
        assert Split(joined, ',') == pieces;
      } else {
        PiecesOfJoin(pieces, ',');
        assert joined == pieces[0] + [','] + Join(pieces[1..], ',');
        assert joined[|pieces[0]|] == ',';
        assert Split(joined, ',') == pieces;
      }
      assert |joined| > 0 by {
        assert |pieces[0]| > 0;
        if |pieces| > 1 {
          assert joined == pieces[0] + [','] + Join(pieces[1..], ',');
        }
      }
    }
  }

  /** The parameter names as usually written, separated by `, `: every name after the first follows a space. */
  function Spaced(parameterNames: seq<String>): (r: seq<String>)
    ensures |r| == |parameterNames|
  {
    seq(|parameterNames|, k requires 0 <= k < |parameterNames| =>
      if k == 0 then parameterNames[k] else [' '] + parameterNames[k])
  }

  /** The space before a name is trimmed away. */
  lemma TrimSpaced(name: String)
    requires PlainName(name)
    ensures Trim([' '] + name) == name
  {
    assert TrimStart([' '] + name) == TrimStart(name);
    TrimNoBlanks(name);
  }

  /**
   * Round trip for a signature written `ret name(p1, p2, ...)`: the handler
   * trims the space after each comma and reads back the return type name and
   * the parameter type names.
   */
  lemma RenderParseSpaced(returnName: String, methodName: String, parameterNames: seq<String>)
    requires PlainName(returnName) && ' ' !in returnName && '(' !in methodName
    requires forall k :: 0 <= k < |parameterNames| ==> PlainName(parameterNames[k])
    ensures ' ' in Trim(Render(returnName, methodName, Spaced(parameterNames)))
    ensures ReturnTypeName(Render(returnName, methodName, Spaced(parameterNames))) == returnName
    ensures ParameterNames(Trim(Render(returnName, methodName, Spaced(parameterNames)))) == parameterNames
  {
    SpacedPieces(parameterNames);
    RenderParseWritten(returnName, methodName, Spaced(parameterNames), parameterNames);
  }

  /** The round trip for parameter names written with blanks around them, as long as each trims to its name. */
  lemma RenderParseWritten(returnName: String, methodName: String, written: seq<String>, parameterNames: seq<String>)
    requires PlainName(returnName) && ' ' !in returnName && '(' !in methodName
    requires |written| == |parameterNames|
    requires forall k :: 0 <= k < |written| ==>
               && written[k] != [] && ',' !in written[k] && ')' !in written[k]
               && Trim(written[k]) == parameterNames[k]
    ensures ' ' in Trim(Render(returnName, methodName, written))
    ensures ReturnTypeName(Render(returnName, methodName, written)) == returnName
    ensures ParameterNames(Trim(Render(returnName, methodName, written))) == parameterNames
  {
    WrittenSplit(written, parameterNames);
    RenderParameterText(returnName, methodName, written);
    ParameterNamesOf(Render(returnName, methodName, written), parameterNames, written);
    RenderReadsReturnType(returnName, methodName, written);
    RenderTrimmed(returnName, methodName, written);
  }

  /** Written names joined by commas split and trim back to the names. */
  lemma WrittenSplit(written: seq<String>, parameterNames: seq<String>)
    requires |written| == |parameterNames|
    requires forall k :: 0 <= k < |written| ==>
               && written[k] != [] && ',' !in written[k] && Trim(written[k]) == parameterNames[k]
    ensures |JoinedNames(written)| == 0 <==> parameterNames == []
    ensures parameterNames != [] ==> TrimAll(Split(JoinedNames(written), ',')) == parameterNames
  {
    SplitJoined(written);
    if written != [] {
      var trimmed := TrimAll(Split(JoinedNames(written), ','));
      assert trimmed == TrimAll(written);
      assert trimmed == parameterNames;
    }
  }

  /** Each spaced name is non-empty, holds no comma or `)`, and trims to the name. */
  lemma SpacedPieces(parameterNames: seq<String>)
    requires forall k :: 0 <= k < |parameterNames| ==> PlainName(parameterNames[k])
    ensures var spaced := Spaced(parameterNames);
            forall k :: 0 <= k < |spaced| ==>
              && spaced[k] != [] && ',' !in spaced[k] && ')' !in spaced[k]
              && Trim(spaced[k]) == parameterNames[k]
  {
    var spaced := Spaced(parameterNames);
    forall k | 0 <= k < |spaced|
      ensures spaced[k] != [] && ',' !in spaced[k] && ')' !in spaced[k] && Trim(spaced[k]) == parameterNames[k]
    {
      if k == 0 {
        TrimNoBlanks(parameterNames[k]);
      } else {
        TrimSpaced(parameterNames[k]);
      }
    }
  }

  /** A join of pieces that lack a character lacks it too. */
  lemma {:induction false} JoinHasNo(parts: seq<String>, c: char)
    requires c != ',' && forall k :: 0 <= k < |parts| ==> c !in parts[k]
    decreases |parts|
    ensures parts != [] ==> c !in Join(parts, ',')
  {
    if |parts| > 1 {
      JoinHasNo(parts[1..], c);
      assert Join(parts, ',') == parts[0] + [','] + Join(parts[1..], ',');
    }
  }
}
