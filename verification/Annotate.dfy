/** Typing arguments from a contract's interface: Annotate and its annotator (internal/abi/abi.go), and how it
    composes with the codec. */
module Annotate {
  import opened Wrappers
  import opened Text
  import opened ScVals
  import opened Codec

  datatype AbiType = AbiType(
    kind: string,
    inner: Option<AbiType>,
    element: Option<AbiType>,
    key: Option<AbiType>,
    value: Option<AbiType>)

  datatype Param = Param(name: string, abiType: AbiType)

  datatype AnnotateError = NotAJsonArray | NotAKeyValuePair

  /** What Annotate reports: the wrong number of arguments, or the first one that fails and why. */
  datatype ArgumentError = WrongCount | BadArgument(index: nat, cause: AnnotateError)

  const SCALAR_PREFIXES: set<string> := {
    "bool", "void", "u32", "i32", "u64", "i64", "u128", "i128", "u256", "i256",
    "timepoint", "duration", "bytes", "string", "symbol", "address"
  }

  /** The prefixes table: the codec prefix for each scalar interface kind. */
  function PrefixFor(kind: string): Option<string> {
    if kind == "bytes_n" then Some("bytes")
    else if kind in SCALAR_PREFIXES then Some(kind)
    else None
  }

  function WithPrefix(prefix: string, spec: Spec): Spec {
    WithHead(spec, prefix + ":" + HeadOf(spec))
  }

  predicate NamesNothing(literal: Spec) {
    ToLower(TextOf(literal)) in ["void", "null"]
  }

  /** The text itself, untrimmed, starts with "[". */
  predicate StartsWithBracket(literal: Spec) {
    (literal.Array? && literal.pre == "") || HasPrefix(TextOf(literal), "[")
  }

  /** json.Marshal of a list of strings, each a spec. */
  function Marshal(specs: seq<Spec>): Spec {
    Array("", "[" + QuoteAll(specs) + "]", seq(|specs|, i requires 0 <= i < |specs| => JString(specs[i])), "")
  }

  function QuoteAll(specs: seq<Spec>): string {
    if specs == [] then ""
    else Quote(specs[0]) + (if |specs| == 1 then "" else "," + QuoteAll(specs[1..]))
  }

  function Quote(spec: Spec): string {
    "\"" + Escape(TextOf(spec)) + "\""
  }

  function Escape(s: string): string {
    if s == "" then ""
    else (if s[0] == '"' || s[0] == '\\' then ['\\', s[0]] else [s[0]]) + Escape(s[1..])
  }

  /** json.Marshal of a list of two-string lists. */
  function MarshalPairs(pairs: seq<(Spec, Spec)>): Spec {
    Array("", "[" + QuotePairs(pairs) + "]",
          seq(|pairs|, i requires 0 <= i < |pairs| =>
            JArray(Marshal([pairs[i].0, pairs[i].1]).raw, [JString(pairs[i].0), JString(pairs[i].1)])),
          "")
  }

  function QuotePairs(pairs: seq<(Spec, Spec)>): string {
    if pairs == [] then ""
    else
      "[" + Quote(pairs[0].0) + "," + Quote(pairs[0].1) + "]" +
      (if |pairs| == 1 then "" else "," + QuotePairs(pairs[1..]))
  }

  /** Nothing but whitespace that JSON knows. */
  predicate JsonBlank(s: string) {
    forall i | 0 <= i < |s| :: IsJsonSpace(s[i])
  }

  /** json.Unmarshal of a literal into a list: unlike the codec's, it is given the text untrimmed, so only
      the whitespace that JSON allows may stand around it. */
  function Unmarshal(literal: Spec): Result<seq<Json>, AnnotateError> {
    if literal.Array? && JsonBlank(literal.pre) && JsonBlank(literal.post) then Ok(literal.items)
    else Err(NotAJsonArray)
  }

  /** Every item can be unmarshalled into a list; a null becomes the empty one. */
  predicate AreRows(items: seq<Json>) {
    forall i | 0 <= i < |items| :: items[i].JArray? || items[i] == JLiteral("null")
  }

  /** json.Unmarshal of a literal into a list of lists. */
  function UnmarshalRows(literal: Spec): Result<seq<Json>, AnnotateError> {
    var items :- Unmarshal(literal);
    if AreRows(items) then Ok(items) else Err(NotAJsonArray)
  }

  /** The literal an element stands for: a JSON string stands for its contents, anything else for its text. */
  function ElementLiteral(item: Json): Spec {
    match item
    case JString(spec) => spec
    case JArray(raw, items) => Array("", raw, items, "")
    case JObject(text) => Plain(text)
    case JLiteral(text) => Plain(text)
  }

  // ---- the annotator ---------------------------------------------------------------

  function AnnotateSpec(t: AbiType, literal: Spec): Result<Spec, AnnotateError>
    decreases t, 2, 0
  {
    if HasType(literal) then Ok(literal)
    else if t.kind == "option" then
      if NamesNothing(literal) then Ok(WithPrefix("void", literal))
      else if t.inner.None? then Ok(literal)
      else AnnotateSpec(t.inner.value, literal)
    else if t.kind == "vec" then
      if !OpensArray(literal) then Ok(literal)
      else
        var items :- Unmarshal(literal);
        var specs :- AnnotateElements(t, items);
        Ok(WithPrefix("vec", Marshal(specs)))
    else if t.kind == "map" then
      if !OpensArray(literal) then Ok(literal)
      else
        var items :- UnmarshalRows(literal);
        var pairs :- AnnotatePairs(t, items);
        Ok(WithPrefix("map", MarshalPairs(pairs)))
    else
      match PrefixFor(t.kind)
      case Some(p) => Ok(WithPrefix(p, literal))
      case None => Ok(literal)
  }

  function AnnotateElements(t: AbiType, items: seq<Json>): Result<seq<Spec>, AnnotateError>
    decreases t, 1, |items|
  {
    if items == [] then Ok([])
    else
      var first :- AnnotateElement(t.element, items[0]);
      var rest :- AnnotateElements(t, items[1..]);
      Ok([first] + rest)
  }

  function AnnotatePairs(t: AbiType, items: seq<Json>): Result<seq<(Spec, Spec)>, AnnotateError>
    decreases t, 1, |items|
  {
    if items == [] then Ok([])
    else if !items[0].JArray? || |items[0].items| != 2 then Err(NotAKeyValuePair)
    else
      var key :- AnnotateElement(t.key, items[0].items[0]);
      var value :- AnnotateElement(t.value, items[0].items[1]);
      var rest :- AnnotatePairs(t, items[1..]);
      Ok([(key, value)] + rest)
  }

  function AnnotateElement(t: Option<AbiType>, item: Json): Result<Spec, AnnotateError>
    decreases t, 0, 0
  {
    var s :- if t.None? then Ok(ElementLiteral(item)) else AnnotateSpec(t.value, ElementLiteral(item));
    Ok(if StartsWithBracket(s) then WithPrefix("vec", s) else s)
  }

  /** The loop of annotator.vec. */
  method AnnotateVecLoop(t: AbiType, literal: Spec) returns (r: Result<Spec, AnnotateError>)
    requires t.kind == "vec" && !HasType(literal) && OpensArray(literal)
    ensures r == AnnotateSpec(t, literal)
  {
    hide HasType, OpensArray, StartsWithBracket, WithPrefix;
    var items :- Unmarshal(literal);
    var specs: seq<Spec> := [];
    PrependToAll(specs, [], AnnotateElements(t, items));
    assert items[0..] == items;
    for i := 0 to |items|
      invariant AnnotateElements(t, items) == Prepend(specs, AnnotateElements(t, items[i..]))
    {
      var s := AnnotateElement(t.element, items[i]);
      assert items[i..][1..] == items[i + 1..] && items[i..][0] == items[i];
      if s.Err? {
        return Err(s.error);
      }
      PrependToAll(specs, [s.value], AnnotateElements(t, items[i + 1..]));
      specs := specs + [s.value];
    }
    assert items[|items|..] == [] && specs + [] == specs;
    return Ok(WithPrefix("vec", Marshal(specs)));
  }

  /** Annotate: every argument typed by its parameter, or the first failure. */
  method AnnotateArguments(inputs: seq<Param>, args: seq<Spec>) returns (r: Result<seq<Spec>, ArgumentError>)
    ensures |args| != |inputs| <==> r == Err(WrongCount)
    ensures r.Ok? ==> |r.value| == |args| &&
                      (forall i | 0 <= i < |args| :: AnnotateSpec(inputs[i].abiType, args[i]) == Ok(r.value[i]))
    ensures r.Err? && r.error.BadArgument? ==>
              && r.error.index < |args|
              && AnnotateSpec(inputs[r.error.index].abiType, args[r.error.index]) == Err(r.error.cause)
              && forall i | 0 <= i < r.error.index :: AnnotateSpec(inputs[i].abiType, args[i]).Ok?
  {
    hide *;
    if |args| != |inputs| {
      return Err(WrongCount);
    }
    var out: seq<Spec> := [];
    for i := 0 to |args|
      invariant |out| == i && forall k | 0 <= k < i :: AnnotateSpec(inputs[k].abiType, args[k]) == Ok(out[k])
    {
      var spec := AnnotateSpec(inputs[i].abiType, args[i]);
      if spec.Err? {
        return Err(BadArgument(i, spec.error));
      }
      out := out + [spec.value];
    }
    return Ok(out);
  }

  // ---- what a declared type demands of a value -----------------------------------------

  /** The value has the Soroban type that a scalar interface kind declares; other kinds demand nothing. */
  predicate IsOfKind(kind: string, v: ScVal) {
    if IntegerTypeNamed(kind).Some? then IntTypeOf(v) == IntegerTypeNamed(kind)
    else
      match kind
      case "bool" => v.Bool?
      case "void" => v.Void?
      case "timepoint" => v.Timepoint?
      case "duration" => v.Duration?
      case "bytes" => v.Bytes?
      case "bytes_n" => v.Bytes?
      case "string" => v.Str?
      case "symbol" => v.Sym?
      case "address" => v.Address?
      case _ => true
  }

  /** A type with no literal form: its arguments are passed through as written. */
  predicate HasNoLiteralForm(t: AbiType) {
    if t.kind == "option" then t.inner.None? || HasNoLiteralForm(t.inner.value)
    else t.kind != "vec" && t.kind != "map" && PrefixFor(t.kind).None?
  }

  /** v is of the declared type t at every position of literal, except where the literal names its own type
      or the annotator passes it through. */
  predicate Conforms(t: AbiType, literal: Spec, v: ScVal)
    decreases t, 1
  {
    if HasType(literal) then true
    else if t.kind == "option" then
      if NamesNothing(literal) then v.Void?
      else t.inner.Some? ==> Conforms(t.inner.value, literal, v)
    else if t.kind == "vec" then
      OpensArray(literal) ==>
        && literal.Array? && v.Vec? && |v.items| == |literal.items|
        && forall i | 0 <= i < |v.items| :: ElementConforms(t.element, literal.items[i], v.items[i])
    else if t.kind == "map" then
      OpensArray(literal) ==>
        && literal.Array? && v.Map? && |v.entries| == |literal.items|
        && forall i | 0 <= i < |v.entries| ::
             var item := literal.items[i];
             && item.JArray? && |item.items| == 2
             && ElementConforms(t.key, item.items[0], v.entries[i].key)
             && ElementConforms(t.value, item.items[1], v.entries[i].val)
    else IsOfKind(t.kind, v)
  }

  predicate ElementConforms(t: Option<AbiType>, item: Json, v: ScVal)
    decreases t, 0
  {
    var literal := ElementLiteral(item);
    && (t.Some? ==> Conforms(t.value, literal, v))
    // An array keeps its meaning, a nested vec, where nothing types it.
    && (StartsWithBracket(literal) && !HasType(literal) && (t.None? || HasNoLiteralForm(t.value)) ==> v.Vec?)
  }

  // ---- soundness -------------------------------------------------------------------------

  lemma PrefixSplitsOff(p: string, spec: Spec)
    requires p != "" && IsTypeName(p)
    ensures SplitSpec(WithPrefix(p, spec)) == Some((p, spec))
    ensures p in TYPE_NAMES ==> HasType(WithPrefix(p, spec))
  {
    hide IndexFrom, SpecSize;
    var head := p + [':'] + HeadOf(spec);
    assert p + ":" + HeadOf(spec) == head;
    assert forall i | 0 <= i < |p| :: IsNameChar(p[i]);
    assert ':' !in p;
    IndexIsFirst(p, ':', HeadOf(spec));
    assert head[..|p|] == p && head[|p| + 1..] == HeadOf(spec);
    assert forall i | 0 <= i < |p| :: LowerChar(p[i]) == p[i];
    assert ToLower(p) == p;
  }

  lemma ScalarPrefixesAreNames(p: string)
    requires p in SCALAR_PREFIXES
    ensures p != "" && IsTypeName(p) && p in TYPE_NAMES && p != "vec" && p != "map"
  {
  }

  lemma ScalarsAreOfTheirKind(strkeys: set<string>, p: string, text: string)
    requires p in SCALAR_PREFIXES && EncodeScalar(strkeys, p, text).Ok?
    ensures IsOfKind(p, EncodeScalar(strkeys, p, text).value)
  {
    hide EncodeBool, EncodeSymbol, EncodeBytes, EncodeAddress, EncodeInteger, IntTypeOf, TrimSpace, ParseUint64;
    hide Unquote;
    match IntegerTypeNamed(p)
    case Some(t) =>
      EncodedIntegersHaveTheirType(t, text);
    case None =>
      ScalarForms(strkeys, text);
  }

  lemma EncodedIntegersHaveTheirType(t: IntType, text: string)
    ensures EncodeInteger(t, text).Ok? ==> IntTypeOf(EncodeInteger(t, text).value) == Some(t)
  {
    if EncodeInteger(t, text).Ok? {
      IntegerEncodingIsFaithful(t, text, Decimal.ParseInteger(text).value);
    }
  }

  lemma ScalarForms(strkeys: set<string>, text: string)
    ensures EncodeBool(text).Ok? ==> EncodeBool(text).value.Bool?
    ensures EncodeSymbol(text).Ok? ==> EncodeSymbol(text).value.Sym?
    ensures EncodeBytes(text).Ok? ==> EncodeBytes(text).value.Bytes?
    ensures EncodeAddress(strkeys, text).Ok? ==> EncodeAddress(strkeys, text).value.Address?
  {
  }

  /** Text that carries a registered scalar prefix is encoded by that prefix's encoder. */
  lemma PrefixedTextEncodes(strkeys: set<string>, p: string, literal: Spec)
    requires p in SCALAR_PREFIXES
    ensures Encode(strkeys, WithPrefix(p, literal)) == EncodeScalar(strkeys, p, TextOf(literal))
  {
    hide EncodeVecAt, EncodeMapAt, EncodeScalar, Infer, SplitSpec, WithPrefix;
    ScalarPrefixesAreNames(p);
    PrefixSplitsOff(p, literal);
  }

  /** Text that carries the vec prefix is encoded as a vec of its elements. */
  lemma VecTextEncodes(strkeys: set<string>, literal: Spec)
    ensures Encode(strkeys, WithPrefix("vec", literal)) == EncodeVecAt(strkeys, literal, 1)
    ensures Encode(strkeys, WithPrefix("map", literal)) == EncodeMapAt(strkeys, literal, 1)
  {
    hide EncodeVecAt, EncodeMapAt, EncodeScalar, Infer, SplitSpec, WithPrefix;
    PrefixSplitsOff("vec", literal);
    PrefixSplitsOff("map", literal);
  }

  lemma {:induction false} ElementsAnnotated(t: AbiType, items: seq<Json>)
    requires AnnotateElements(t, items).Ok?
    ensures |AnnotateElements(t, items).value| == |items|
    ensures forall i | 0 <= i < |items| ::
              AnnotateElement(t.element, items[i]) == Ok(AnnotateElements(t, items).value[i])
  {
    if items != [] {
      var rest := items[1..];
      ElementsAnnotated(t, rest);
      assert forall i | 1 <= i < |items| :: items[i] == rest[i - 1];
      assert AnnotateElements(t, items).value[1..] == AnnotateElements(t, rest).value;
    }
  }

  lemma {:induction false} PairsAnnotated(t: AbiType, items: seq<Json>)
    requires AnnotatePairs(t, items).Ok?
    ensures |AnnotatePairs(t, items).value| == |items|
    ensures forall i | 0 <= i < |items| ::
              && items[i].JArray? && |items[i].items| == 2
              && AnnotateElement(t.key, items[i].items[0]) == Ok(AnnotatePairs(t, items).value[i].0)
              && AnnotateElement(t.value, items[i].items[1]) == Ok(AnnotatePairs(t, items).value[i].1)
  {
    if items != [] {
      var rest := items[1..];
      PairsAnnotated(t, rest);
      assert forall i | 1 <= i < |items| :: items[i] == rest[i - 1];
      assert AnnotatePairs(t, items).value[1..] == AnnotatePairs(t, rest).value;
    }
  }

  /** Soundness: a literal that the annotator types and the codec then encodes holds, at every position, a
      value of the declared type. */
  lemma {:induction false} AnnotationIsSound(strkeys: set<string>, t: AbiType, literal: Spec)
    requires AnnotateSpec(t, literal).Ok? && Encode(strkeys, AnnotateSpec(t, literal).value).Ok?
    ensures Conforms(t, literal, Encode(strkeys, AnnotateSpec(t, literal).value).value)
    decreases t, 2
  {
    hide Encode, HasType, OpensArray, NamesNothing, IsOfKind, PrefixFor, WithPrefix;
    if !HasType(literal) {
      if t.kind == "option" {
        if NamesNothing(literal) {
          VoidIsVoid(strkeys, literal);
        } else if t.inner.Some? {
          AnnotationIsSound(strkeys, t.inner.value, literal);
        }
      } else if t.kind == "vec" {
        if OpensArray(literal) {
          VecIsSound(strkeys, t, literal);
        }
      } else if t.kind == "map" {
        if OpensArray(literal) {
          MapIsSound(strkeys, t, literal);
        }
      } else {
        ScalarIsSound(strkeys, t, literal);
      }
    }
  }

  lemma VoidIsVoid(strkeys: set<string>, literal: Spec)
    ensures Encode(strkeys, WithPrefix("void", literal)) == Ok(Void)
  {
    hide Encode, WithPrefix, EncodeInteger;
    PrefixedTextEncodes(strkeys, "void", literal);
    assert IntegerTypeNamed("void") == None;
  }

  lemma ScalarIsSound(strkeys: set<string>, t: AbiType, literal: Spec)
    requires t.kind !in ["option", "vec", "map"] && !HasType(literal)
    requires Encode(strkeys, AnnotateSpec(t, literal).value).Ok?
    ensures IsOfKind(t.kind, Encode(strkeys, AnnotateSpec(t, literal).value).value)
  {
    hide EncodeScalar, Encode, IsOfKind, WithPrefix, HasType;
    match PrefixFor(t.kind)
    case Some(p) =>
      PrefixedTextEncodes(strkeys, p, literal);
      ScalarsAreOfTheirKind(strkeys, p, TextOf(literal));
      KindOfPrefix(t.kind, Encode(strkeys, AnnotateSpec(t, literal).value).value);
    case None =>
      OtherKinds(t.kind, Encode(strkeys, AnnotateSpec(t, literal).value).value);
  }

  lemma KindOfPrefix(kind: string, v: ScVal)
    requires PrefixFor(kind).Some? && IsOfKind(PrefixFor(kind).value, v)
    ensures IsOfKind(kind, v)
  {
  }

  lemma OtherKinds(kind: string, v: ScVal)
    requires PrefixFor(kind).None?
    ensures IsOfKind(kind, v)
  {
  }

  lemma {:induction false} VecIsSound(strkeys: set<string>, t: AbiType, literal: Spec)
    requires t.kind == "vec" && !HasType(literal) && OpensArray(literal)
    requires AnnotateSpec(t, literal).Ok? && Encode(strkeys, AnnotateSpec(t, literal).value).Ok?
    ensures Conforms(t, literal, Encode(strkeys, AnnotateSpec(t, literal).value).value)
    decreases t, 1
  {
    hide HasType, Encode, WithPrefix, QuoteAll;
    var specs := AnnotateElements(t, literal.items).value;
    var marshalled := Marshal(specs);
    VecTextEncodes(strkeys, marshalled);
    ElementsAnnotated(t, literal.items);
    ElementsPointwise(strkeys, marshalled.items, 1);
    var v := Encode(strkeys, AnnotateSpec(t, literal).value).value;
    forall i | 0 <= i < |v.items|
      ensures ElementConforms(t.element, literal.items[i], v.items[i])
    {
      assert EncodeElementAt(strkeys, marshalled.items[i], 1) == Encode(strkeys, specs[i]);
      ElementIsSound(strkeys, t.element, literal.items[i]);
    }
  }

  lemma {:induction false} MapIsSound(strkeys: set<string>, t: AbiType, literal: Spec)
    requires t.kind == "map" && !HasType(literal) && OpensArray(literal)
    requires AnnotateSpec(t, literal).Ok? && Encode(strkeys, AnnotateSpec(t, literal).value).Ok?
    ensures Conforms(t, literal, Encode(strkeys, AnnotateSpec(t, literal).value).value)
    decreases t, 1
  {
    hide HasType, Encode, WithPrefix, QuotePairs, QuoteAll;
    var pairs := AnnotatePairs(t, literal.items).value;
    var marshalled := MarshalPairs(pairs);
    VecTextEncodes(strkeys, marshalled);
    PairsAnnotated(t, literal.items);
    PairsPointwise(strkeys, marshalled.items, 1);
    var v := Encode(strkeys, AnnotateSpec(t, literal).value).value;
    forall i | 0 <= i < |v.entries|
      ensures ElementConforms(t.key, literal.items[i].items[0], v.entries[i].key)
      ensures ElementConforms(t.value, literal.items[i].items[1], v.entries[i].val)
    {
      var halves := marshalled.items[i].items;
      assert EncodeElementAt(strkeys, halves[0], 1) == Encode(strkeys, pairs[i].0);
      assert EncodeElementAt(strkeys, halves[1], 1) == Encode(strkeys, pairs[i].1);
      ElementIsSound(strkeys, t.key, literal.items[i].items[0]);
      ElementIsSound(strkeys, t.value, literal.items[i].items[1]);
    }
  }

  lemma {:induction false} ElementIsSound(strkeys: set<string>, t: Option<AbiType>, item: Json)
    requires AnnotateElement(t, item).Ok? && Encode(strkeys, AnnotateElement(t, item).value).Ok?
    ensures ElementConforms(t, item, Encode(strkeys, AnnotateElement(t, item).value).value)
    decreases t, 0
  {
    hide Encode, EncodeVecAt, AnnotateSpec, Conforms, HasType, HasNoLiteralForm, StartsWithBracket, WithPrefix;
    var literal := ElementLiteral(item);
    var s := if t.None? then literal else AnnotateSpec(t.value, literal).value;
    if StartsWithBracket(s) {
      VecTextEncodes(strkeys, s);
      VecsAreVecs(strkeys, s);
      if t.Some? {
        BracketsArePassedThrough(t.value, literal);
      }
    } else if t.Some? {
      AnnotationIsSound(strkeys, t.value, literal);
      if StartsWithBracket(literal) && !HasType(literal) && HasNoLiteralForm(t.value) {
        NoLiteralFormPassesThrough(t.value, literal);
      }
    }
  }

  lemma VecsAreVecs(strkeys: set<string>, literal: Spec)
    ensures EncodeVecAt(strkeys, literal, 1).Ok? ==> EncodeVecAt(strkeys, literal, 1).value.Vec?
  {
  }

  lemma BracketFacts(literal: Spec)
    requires StartsWithBracket(literal)
    ensures OpensArray(literal) && !HasType(literal) && !NamesNothing(literal)
  {
    hide ToLower, TrimSpace, SplitSpec;
    assert TextOf(literal) != "" && TextOf(literal)[0] == '[';
    BracketText(TextOf(literal));
    BracketIsNoName(literal);
  }

  lemma BracketText(text: string)
    requires text != "" && text[0] == '['
    ensures HasPrefix(TrimSpace(text), "[") && ToLower(text) !in ["void", "null"]
  {
    assert TrimLeft(text) == text;
    TrimRightKeepsFirst(text);
    assert ToLower(text)[0] == '[';
  }

  lemma BracketIsNoName(literal: Spec)
    requires StartsWithBracket(literal)
    ensures SplitSpec(literal).None?
  {
    hide IndexFrom;
    var head := HeadOf(literal);
    assert head != "" ==> head[0] == TextOf(literal)[0];
    var colon := Index(head, ':');
    if colon > 0 {
      assert ToLower(head[..colon])[0] == '[';
    }
  }

  lemma {:induction false} TrimRightKeepsFirst(s: string)
    requires s != "" && !IsSpace(s[0])
    ensures TrimRight(s) != "" && TrimRight(s)[0] == s[0]
  {
    if |s| > 1 && IsSpace(s[|s| - 1]) {
      TrimRightKeepsFirst(s[..|s| - 1]);
    }
  }

  lemma PrefixedTextHasNoBracket(p: string, literal: Spec)
    requires p != "" && IsTypeName(p)
    ensures !StartsWithBracket(WithPrefix(p, literal))
  {
    assert IsNameChar(p[0]);
    assert TextOf(WithPrefix(p, literal))[0] == p[0];
  }

  /** The annotator leaves a leading "[" in front only when it passes the literal through. */
  lemma {:induction false} BracketsArePassedThrough(t: AbiType, literal: Spec)
    requires AnnotateSpec(t, literal).Ok? && StartsWithBracket(AnnotateSpec(t, literal).value)
    ensures AnnotateSpec(t, literal).value == literal && !HasType(literal) && HasNoLiteralForm(t)
    ensures forall v :: Conforms(t, literal, v)
    decreases t
  {
    hide HasType, OpensArray, NamesNothing, StartsWithBracket, WithPrefix, AnnotateElements, AnnotatePairs, Marshal;
    hide MarshalPairs;
    BracketFacts(AnnotateSpec(t, literal).value);
    if t.kind == "option" {
      if NamesNothing(literal) {
        PrefixedTextHasNoBracket("void", literal);
      } else if t.inner.Some? {
        BracketsArePassedThrough(t.inner.value, literal);
      }
    } else if t.kind == "vec" {
      if OpensArray(literal) && !HasType(literal) {
        PrefixedTextHasNoBracket("vec", Marshal(AnnotateElements(t, Unmarshal(literal).value).value));
      }
    } else if t.kind == "map" {
      if OpensArray(literal) && !HasType(literal) {
        PrefixedTextHasNoBracket("map", MarshalPairs(AnnotatePairs(t, Unmarshal(literal).value).value));
      }
    } else if PrefixFor(t.kind).Some? {
      ScalarPrefixesAreNames(PrefixFor(t.kind).value);
      PrefixedTextHasNoBracket(PrefixFor(t.kind).value, literal);
    }
  }

  lemma {:induction false} NoLiteralFormPassesThrough(t: AbiType, literal: Spec)
    requires StartsWithBracket(literal) && HasNoLiteralForm(t)
    ensures AnnotateSpec(t, literal) == Ok(literal)
    decreases t
  {
    BracketFacts(literal);
    if t.kind == "option" && t.inner.Some? {
      NoLiteralFormPassesThrough(t.inner.value, literal);
    }
  }

  // ---- idempotence ----------------------------------------------------------------------

  /** What the annotator returns either names its type or is the literal unchanged. */
  lemma {:induction false} AnnotatedOrUnchanged(t: AbiType, literal: Spec)
    requires AnnotateSpec(t, literal).Ok?
    ensures HasType(AnnotateSpec(t, literal).value) || AnnotateSpec(t, literal).value == literal
    decreases t
  {
    hide HasType, OpensArray, NamesNothing, WithPrefix, AnnotateElements, AnnotatePairs, Marshal, MarshalPairs;
    if !HasType(literal) {
      if t.kind == "option" {
        if NamesNothing(literal) {
          PrefixSplitsOff("void", literal);
        } else if t.inner.Some? {
          AnnotatedOrUnchanged(t.inner.value, literal);
        }
      } else if t.kind == "vec" {
        if OpensArray(literal) {
          PrefixSplitsOff("vec", Marshal(AnnotateElements(t, Unmarshal(literal).value).value));
        }
      } else if t.kind == "map" {
        if OpensArray(literal) {
          PrefixSplitsOff("map", MarshalPairs(AnnotatePairs(t, Unmarshal(literal).value).value));
        }
      } else if PrefixFor(t.kind).Some? {
        ScalarPrefixesAreNames(PrefixFor(t.kind).value);
        PrefixSplitsOff(PrefixFor(t.kind).value, literal);
      }
    }
  }

  /** Annotating an annotated argument changes nothing. */
  lemma AnnotationIsIdempotent(t: AbiType, literal: Spec)
    requires AnnotateSpec(t, literal).Ok?
    ensures AnnotateSpec(t, AnnotateSpec(t, literal).value) == AnnotateSpec(t, literal)
  {
    hide HasType;
    AnnotatedOrUnchanged(t, literal);
  }

  // ---- when a literal is returned as written ---------------------------------------------------

  /** The literal names its type, its declared type has no literal form for it, or it is a vec or map literal
      that does not open an array. */
  predicate PassesThrough(t: AbiType, literal: Spec) {
    || HasType(literal)
    || (if t.kind == "option" then t.inner.None? || PassesThrough(t.inner.value, literal)
        else if t.kind in ["vec", "map"] then !OpensArray(literal)
        else PrefixFor(t.kind).None?)
  }

  /** The annotator returns a literal unchanged in exactly these cases. */
  lemma {:induction false} UnchangedExactly(t: AbiType, literal: Spec)
    ensures AnnotateSpec(t, literal) == Ok(literal) <==> PassesThrough(t, literal)
    decreases t
  {
    hide HasType, OpensArray, NamesNothing, WithPrefix, AnnotateElements, AnnotatePairs, Marshal, MarshalPairs;
    if !HasType(literal) {
      NothingIsTyped(literal);
      if t.kind == "option" {
        if t.inner.Some? {
          UnchangedExactly(t.inner.value, literal);
        }
      } else if t.kind == "vec" {
        if OpensArray(literal) && AnnotateSpec(t, literal).Ok? {
          PrefixSplitsOff("vec", Marshal(AnnotateElements(t, Unmarshal(literal).value).value));
        }
      } else if t.kind == "map" {
        if OpensArray(literal) && AnnotateSpec(t, literal).Ok? {
          PrefixSplitsOff("map", MarshalPairs(AnnotatePairs(t, UnmarshalRows(literal).value).value));
        }
      } else if PrefixFor(t.kind).Some? {
        ScalarPrefixesAreNames(PrefixFor(t.kind).value);
        PrefixSplitsOff(PrefixFor(t.kind).value, literal);
      }
    }
  }

  lemma NothingIsTyped(literal: Spec)
    ensures NamesNothing(literal) ==> HasType(literal)
  {
    hide SplitSpec, ToLower;
  }

  // ---- whitespace that JSON does not know -------------------------------------------------------

  lemma BlankArrays(literal: Spec)
    requires literal.Array? && AllSpace(literal.pre)
    ensures OpensArray(literal) && !HasType(literal)
  {
    hide IndexFrom;
    var colon := Index(literal.pre, ':');
    assert colon < 0 || IsSpace(literal.pre[colon]);
    var text := TextOf(literal);
    assert text[|literal.pre|] == '[';
    assert ToLower(text)[|literal.pre|] == '[';
  }

  /** An array literal between whitespace, whose elements annotate, is refused exactly when some of that whitespace
      is none that JSON knows; for the codec the whitespace around it makes no difference. */
  lemma OnlyJsonWhitespaceAnnotates(strkeys: set<string>, t: AbiType, literal: Spec, depth: nat)
    requires literal.Array? && AllSpace(literal.pre)
    ensures t.kind == "vec" && AnnotateElements(t, literal.items).Ok? ==>
              (AnnotateSpec(t, literal).Err? <==> !JsonBlank(literal.pre) || !JsonBlank(literal.post))
    ensures t.kind == "map" && AreRows(literal.items) && AnnotatePairs(t, literal.items).Ok? ==>
              (AnnotateSpec(t, literal).Err? <==> !JsonBlank(literal.pre) || !JsonBlank(literal.post))
    ensures EncodeVecAt(strkeys, literal, depth) == EncodeVecAt(strkeys, literal.(pre := "", post := ""), depth)
    ensures EncodeMapAt(strkeys, literal, depth) == EncodeMapAt(strkeys, literal.(pre := "", post := ""), depth)
  {
    hide EncodeElements, EncodePairs, AnnotateElements, AnnotatePairs, HasType;
    BlankArrays(literal);
  }

  // ---- when annotation fails ----------------------------------------------------------------------

  /** An array literal that a vec or map type cannot take: one that JSON cannot read, one with an element that its
      type refuses, or, for a map, one with an item that is no pair. */
  predicate Refused(t: AbiType, literal: Spec)
    decreases t, 1
  {
    && !HasType(literal)
    && (if t.kind == "option" then t.inner.Some? && Refused(t.inner.value, literal)
        else if t.kind == "vec" then
          && OpensArray(literal)
          && (Unmarshal(literal).Err?
              || exists i | 0 <= i < |literal.items| :: ElementRefused(t.element, literal.items[i]))
        else if t.kind == "map" then
          && OpensArray(literal)
          && (Unmarshal(literal).Err? || exists i | 0 <= i < |literal.items| :: PairRefused(t, literal.items[i]))
        else false)
  }

  predicate ElementRefused(t: Option<AbiType>, item: Json)
    decreases t, 0
  {
    t.Some? && Refused(t.value, ElementLiteral(item))
  }

  predicate PairRefused(t: AbiType, item: Json)
    decreases t, 0
  {
    !item.JArray? || |item.items| != 2 || ElementRefused(t.key, item.items[0]) || ElementRefused(t.value, item.items[1])
  }

  /** The annotator fails in exactly these cases, through every option, element, key and value. */
  lemma {:induction false} FailsExactly(t: AbiType, literal: Spec)
    ensures AnnotateSpec(t, literal).Err? <==> Refused(t, literal)
    decreases t, 1, 0
  {
    hide HasType, OpensArray, NamesNothing, WithPrefix, Marshal, MarshalPairs;
    if !HasType(literal) {
      NothingIsTyped(literal);
      if t.kind == "option" {
        if t.inner.Some? {
          FailsExactly(t.inner.value, literal);
        }
      } else if t.kind == "vec" && Unmarshal(literal).Ok? {
        ElementsFailExactly(t, literal.items);
      } else if t.kind == "map" && Unmarshal(literal).Ok? {
        RowsFailExactly(t, literal.items);
        PairsFailExactly(t, literal.items);
      }
    }
  }

  lemma {:induction false} ElementFailsExactly(t: Option<AbiType>, item: Json)
    ensures AnnotateElement(t, item).Err? <==> ElementRefused(t, item)
    decreases t, 0, 0
  {
    if t.Some? {
      FailsExactly(t.value, ElementLiteral(item));
    }
  }

  lemma {:induction false} ElementsFailExactly(t: AbiType, items: seq<Json>)
    ensures AnnotateElements(t, items).Err? <==> exists i | 0 <= i < |items| :: ElementRefused(t.element, items[i])
    decreases t, 0, |items|
  {
    hide ElementRefused, AnnotateElement;
    if items != [] {
      var rest := items[1..];
      ElementFailsExactly(t.element, items[0]);
      ElementsFailExactly(t, rest);
      assert forall i | 1 <= i < |items| :: items[i] == rest[i - 1];
      assert forall i | 0 <= i < |rest| :: rest[i] == items[i + 1];
    }
  }

  /** Items that cannot be read as lists are no pairs. */
  lemma RowsFailExactly(t: AbiType, items: seq<Json>)
    ensures !AreRows(items) ==> exists i | 0 <= i < |items| :: PairRefused(t, items[i])
  {
    hide ElementRefused;
    if !AreRows(items) {
      var i :| 0 <= i < |items| && !items[i].JArray?;
      assert PairRefused(t, items[i]);
    }
  }

  lemma {:induction false} PairsFailExactly(t: AbiType, items: seq<Json>)
    ensures AnnotatePairs(t, items).Err? <==> exists i | 0 <= i < |items| :: PairRefused(t, items[i])
    decreases t, 0, |items|
  {
    hide ElementRefused, AnnotateElement;
    if items != [] {
      var rest := items[1..];
      if items[0].JArray? && |items[0].items| == 2 {
        ElementFailsExactly(t.key, items[0].items[0]);
        ElementFailsExactly(t.value, items[0].items[1]);
      }
      PairsFailExactly(t, rest);
      assert forall i | 1 <= i < |items| :: items[i] == rest[i - 1];
      assert forall i | 0 <= i < |rest| :: rest[i] == items[i + 1];
    }
  }

  /** A list of two empty lists, where a vec of maps is declared: the codec encodes it, the annotator looks for
      pairs and refuses it. */
  lemma ListsAreNoPairs(strkeys: set<string>, entry: AbiType, t: AbiType, literal: Spec)
    requires t.kind == "vec" && t.element == Some(entry) && entry.kind == "map"
    requires literal == Array("", "[[[],[]]]", [JArray("[[],[]]", [JArray("[]", []), JArray("[]", [])])], "")
    ensures AnnotateSpec(t, literal) == Err(NotAKeyValuePair)
    ensures EncodeVecAt(strkeys, literal, 1) == Ok(Vec([Vec([Vec([]), Vec([])])]))
  {
    hide HasType, OpensArray;
    var nothing := JArray("[]", []);
    var lists := literal.items[0];
    BlankArrays(literal);
    BlankArrays(ElementLiteral(lists));
    assert AnnotatePairs(entry, lists.items) == Err(NotAKeyValuePair);
    assert AnnotateSpec(entry, ElementLiteral(lists)) == Err(NotAKeyValuePair);
    assert AnnotateElements(t, literal.items) == Err(NotAKeyValuePair);
    assert lists.items == [nothing] + ([nothing] + []) && literal.items == [lists] + [];
    EncodedLists(strkeys, "[]", [], [], 3);
    OneMoreElement(strkeys, nothing, [], Vec([]), [], 2);
    OneMoreElement(strkeys, nothing, [nothing] + [], Vec([]), [Vec([])] + [], 2);
    assert [Vec([])] + ([Vec([])] + []) == [Vec([]), Vec([])];
    EncodedLists(strkeys, "[[],[]]", lists.items, [Vec([]), Vec([])], 2);
    OneMoreElement(strkeys, lists, [], Vec([Vec([]), Vec([])]), [], 1);
    assert [Vec([Vec([]), Vec([])])] + [] == [Vec([Vec([]), Vec([])])];
    EncodedLists(strkeys, literal.raw, literal.items, [Vec([Vec([]), Vec([])])], 1);
  }

  lemma EncodedLists(strkeys: set<string>, raw: ArrayText, items: seq<Json>, values: seq<ScVal>, depth: nat)
    requires depth <= MAX_DEPTH && EncodeElements(strkeys, items, depth) == Ok(values)
    ensures EncodeVecAt(strkeys, Array("", raw, items, ""), depth) == Ok(Vec(values))
  {
    hide EncodeElements;
  }

  lemma OneMoreElement(strkeys: set<string>, first: Json, rest: seq<Json>, v: ScVal, values: seq<ScVal>, depth: nat)
    requires EncodeElementAt(strkeys, first, depth) == Ok(v) && EncodeElements(strkeys, rest, depth) == Ok(values)
    ensures EncodeElements(strkeys, [first] + rest, depth) == Ok([v] + values)
  {
    hide EncodeElementAt;
    assert ([first] + rest)[1..] == rest;
  }

  const NO_BREAK_SPACE: char := '\U{A0}'

  /** An empty array behind a no-break space, say: the codec encodes it, the annotator refuses it. */
  lemma NoBreakSpaceIsRefused(strkeys: set<string>, t: AbiType, raw: ArrayText)
    requires t.kind in ["vec", "map"]
    ensures AnnotateSpec(t, Array([NO_BREAK_SPACE], raw, [], "")) == Err(NotAJsonArray)
    ensures EncodeVecAt(strkeys, Array([NO_BREAK_SPACE], raw, [], ""), 1) == Ok(Vec([]))
    ensures EncodeMapAt(strkeys, Array([NO_BREAK_SPACE], raw, [], ""), 1) == Ok(Map([]))
  {
    var literal := Array([NO_BREAK_SPACE], raw, [], "");
    assert !IsJsonSpace(literal.pre[0]);
    OnlyJsonWhitespaceAnnotates(strkeys, t, literal, 1);
  }
}
