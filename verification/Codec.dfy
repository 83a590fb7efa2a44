/** The argument codec: Registry.Encode with its built-in encoders (internal/scval/scval.go, encode.go,
    collections.go) and Decode (internal/scval/decode.go).

    JSON text is held parsed. A spec is plain text, or text that ends in a JSON array, kept both as written
    and as its elements; a JSON string element holds the spec it spells. */
module Codec {
  import opened Wrappers
  import opened Text
  import opened Decimal
  import opened Hex
  import opened ScVals

  type ArrayText = s: string | s != "" && s[0] == '[' witness "["

  datatype Json =
    | JString(spec: Spec)
    | JArray(raw: ArrayText, items: seq<Json>)
    | JObject(text: string)
    | JLiteral(text: string)

  type Blank = s: string | AllSpace(s) witness ""

  /** Array(pre, raw, items, post) is the text pre + raw + post, where raw is a JSON array of items and only
      whitespace follows it. Plain text has no such ending, so a Plain text starting with "[" is not valid JSON. */
  datatype Spec =
    | Plain(text: string)
    | Array(pre: string, raw: ArrayText, items: seq<Json>, post: Blank)

  function TextOf(spec: Spec): string {
    match spec
    case Plain(text) => text
    case Array(pre, raw, _, post) => pre + raw + post
  }

  /** Sizes shrink from a spec to the elements of its array: what makes the encoding terminate. */
  function SpecSize(spec: Spec): nat
    decreases spec, 0
  {
    match spec
    case Plain(_) => 1
    case Array(_, _, items, _) => 1 + ItemsSize(items)
  }

  function JsonSize(j: Json): (n: nat)
    ensures n > 0
    decreases j, 0
  {
    match j
    case JString(spec) => 1 + SpecSize(spec)
    case JArray(_, items) => 2 + ItemsSize(items)
    case JObject(_) => 1
    case JLiteral(_) => 2
  }

  function ItemsSize(items: seq<Json>): nat
    decreases items, 0
  {
    if items == [] then 0 else JsonSize(items[0]) + ItemsSize(items[1..])
  }

  // ---- splitSpec and the registered names ---------------------------------------

  const TYPE_NAMES: set<string> := {
    "bool", "void", "null", "u32", "i32", "u64", "i64", "u128", "i128", "u256", "i256",
    "timepoint", "duration", "sym", "symbol", "str", "string", "bytes", "addr", "address", "vec", "map"
  }

  predicate IsNameChar(c: char) {
    'a' <= c <= 'z' || '0' <= c <= '9' || c == '_'
  }

  predicate IsTypeName(s: string) {
    forall i | 0 <= i < |s| :: IsNameChar(s[i])
  }

  /** splitSpec: the lower-cased text before the first colon and what follows it. The first colon of an
      Array spec is a prefix separator only when it comes before the array: "[" is not a name character. */
  function SplitSpec(spec: Spec): (r: Option<(string, Spec)>)
    ensures r.Some? ==> SpecSize(r.value.1) == SpecSize(spec)
  {
    var head := HeadOf(spec);
    var colon := Index(head, ':');
    if colon <= 0 then None
    else
      var prefix := ToLower(head[..colon]);
      if !IsTypeName(prefix) then None
      else Some((prefix, WithHead(spec, head[colon + 1..])))
  }

  function HeadOf(spec: Spec): string {
    if spec.Plain? then spec.text else spec.pre
  }

  function WithHead(spec: Spec, head: string): Spec {
    match spec
    case Plain(_) => Plain(head)
    case Array(_, raw, items, post) => Array(head, raw, items, post)
  }

  /** The trimmed text starts with "[". */
  predicate OpensArray(literal: Spec) {
    (literal.Array? && AllSpace(literal.pre)) || HasPrefix(TrimSpace(TextOf(literal)), "[")
  }

  /** HasType: the spec names its type, by a registered prefix or as a bare "void" or "null". */
  predicate HasType(spec: Spec) {
    || (SplitSpec(spec).Some? && SplitSpec(spec).value.0 in TYPE_NAMES)
    || ToLower(TextOf(spec)) in ["void", "null"]
  }

  // ---- scalar encoders ------------------------------------------------------------

  const MAX_SYMBOL_LENGTH: nat := 32

  function TrimPrefix(s: string, p: string): string {
    if HasPrefix(s, p) then s[|p|..] else s
  }

  predicate IsIntegerLiteral(s: string) {
    var body := TrimPrefix(TrimPrefix(s, "-"), "+");
    body != "" && IsDigits(body)
  }

  predicate IsSymbolLiteral(s: string) {
    && s != "" && |s| <= MAX_SYMBOL_LENGTH
    && forall i | 0 <= i < |s| :: IsNameChar(s[i]) || 'A' <= s[i] <= 'Z'
  }

  function Unquote(s: string): string {
    if |s| >= 2 && s[0] == s[|s| - 1] && (s[0] == '"' || s[0] == '\'') then s[1..|s| - 1] else s
  }

  function EncodeBool(literal: string): Result<ScVal, EncodeError> {
    var s := TrimSpace(literal);
    if s in ["1", "t", "T", "true", "TRUE", "True"] then Ok(Bool(true))
    else if s in ["0", "f", "F", "false", "FALSE", "False"] then Ok(Bool(false))
    else Err(NotABool)
  }

  /** strconv.ParseUint(s, 10, 64): digits only, no sign. */
  function ParseUint64(s: string): Option<Words.uint64> {
    if s == "" || !IsDigits(s) || Value(s) >= Words.TWO64 then None else Some(Value(s))
  }

  function EncodeSymbol(literal: string): Result<ScVal, EncodeError> {
    var s := Unquote(literal);
    if |s| > MAX_SYMBOL_LENGTH || (!IsSymbolLiteral(s) && s != "") then Err(BadSymbol) else Ok(Sym(s))
  }

  function EncodeBytes(literal: string): Result<ScVal, EncodeError> {
    match HexDecode(TrimPrefix(TrimSpace(Unquote(literal)), "0x"))
    case Some(bytes) => Ok(Bytes(bytes))
    case None => Err(BadHex)
  }

  /** strkeys is the set of texts the strkey library accepts as account or contract addresses. */
  function EncodeAddress(strkeys: set<string>, literal: string): Result<ScVal, EncodeError> {
    var s := TrimSpace(Unquote(literal));
    if s in strkeys then Ok(Address(s)) else Err(BadAddress)
  }

  function IntegerTypeNamed(name: string): Option<IntType> {
    match name
    case "u32" => Some(TU32)
    case "i32" => Some(TI32)
    case "u64" => Some(TU64)
    case "i64" => Some(TI64)
    case "u128" => Some(TU128)
    case "i128" => Some(TI128)
    case "u256" => Some(TU256)
    case "i256" => Some(TI256)
    case _ => None
  }

  function EncodeScalar(strkeys: set<string>, name: string, literal: string): Result<ScVal, EncodeError> {
    if IntegerTypeNamed(name).Some? then EncodeInteger(IntegerTypeNamed(name).value, literal)
    else if name == "bool" then EncodeBool(literal)
    else if name == "void" || name == "null" then Ok(Void)
    else if name == "timepoint" || name == "duration" then
      match ParseUint64(TrimSpace(literal))
      case None => Err(NotAnUnsignedCount)
      case Some(n) => Ok(if name == "timepoint" then Timepoint(n) else Duration(n))
    else if name == "sym" || name == "symbol" then EncodeSymbol(literal)
    else if name == "bytes" then EncodeBytes(literal)
    else if name == "addr" || name == "address" then EncodeAddress(strkeys, literal)
    else Ok(Str(Unquote(literal)))
  }

  /** infer: the rules for a spec without a registered prefix, tried in order. */
  function Infer(strkeys: set<string>, text: string): Result<ScVal, EncodeError> {
    var lower := ToLower(text);
    if lower == "true" || lower == "false" then EncodeBool(text)
    else if lower == "void" || lower == "null" then Ok(Void)
    else if text in strkeys then EncodeAddress(strkeys, text)
    else if IsIntegerLiteral(text) then EncodeInteger(TI128, text)
    else if IsSymbolLiteral(text) then EncodeSymbol(text)
    else Ok(Str(Unquote(text)))
  }

  /** The spellings of a truth value that strconv.ParseBool knows. */
  predicate SpellsBool(s: string) {
    s in ["1", "t", "T", "true", "TRUE", "True", "0", "f", "F", "false", "FALSE", "False"]
  }

  lemma SignedDigits(text: string)
    requires IsIntegerLiteral(text)
    ensures SetString(text).None? <==> HasPrefix(text, "-+")
    ensures TrimSpace(text) == text && '@' !in text
  {
    var body := TrimPrefix(TrimPrefix(text, "-"), "+");
    var k := |text| - |body|;
    assert text[k..] == body;
    assert forall i | k <= i < |text| :: text[i] == body[i - k];
    assert forall i | 0 <= i < k :: text[i] in "-+";
    TrimKeepsSolidText(text);
    if HasPrefix(text, "-+") {
      assert text[1..][0] == '+';
    } else if k == 1 {
      assert text[1..] == body;
    } else {
      assert k == 0;
    }
  }

  lemma SymbolsAreBare(text: string)
    requires IsSymbolLiteral(text)
    ensures EncodeSymbol(text) == Ok(Sym(text))
  {
    assert IsNameChar(text[0]) || 'A' <= text[0] <= 'Z';
  }

  /** Inference is not total. An argument without a type is refused exactly when it is a truth value in a mix of
      cases, or reads as an integer but begins with "-+" or does not fit an i128. */
  lemma InferenceFailsExactly(strkeys: set<string>, text: string)
    requires forall k | k in strkeys :: TrimSpace(Unquote(k)) == k
    ensures Infer(strkeys, text).Err? <==>
            || (ToLower(text) in ["true", "false"] && !SpellsBool(text))
            || (ToLower(text) !in ["true", "false", "void", "null"] && text !in strkeys && IsIntegerLiteral(text)
                && (HasPrefix(text, "-+") || !TI128.Holds(SetString(text).value)))
  {
    hide ToLower, MakeInteger, IntType.Holds, IsSymbolLiteral, ParseInteger, SetString;
    if ToLower(text) in ["true", "false"] {
      BooleansAreBare(text);
    } else if IsIntegerLiteral(text) {
      SignedDigits(text);
      if SetString(text).Some? {
        PlainLiterals(text, SetString(text).value);
      } else if ParseInteger(text).Ok? {
        PlainLiterals(text, ParseInteger(text).value);
      }
    } else if IsSymbolLiteral(text) {
      SymbolsAreBare(text);
    }
  }

  /** Two signs are taken for the start of an integer and refused, and so is a truth value in a mix of cases. */
  lemma InferenceRefuses(strkeys: set<string>)
    requires "-+5" !in strkeys
    ensures Infer(strkeys, "-+5").Err? && IsIntegerLiteral("-+5")
    ensures Infer(strkeys, "TrUE").Err?
  {
    hide ToLower, IsIntegerLiteral, ParseInteger, IsSymbolLiteral;
    TwoSigns();
    assert ToLower("TrUE") == "true";
    BooleansAreBare("TrUE");
  }

  lemma TwoSigns()
    ensures IsIntegerLiteral("-+5") && ParseInteger("-+5").Err?
    ensures ToLower("-+5") !in ["true", "false", "void", "null"]
  {
    hide ParseInteger;
    assert "-+5"[1..] == "+5" && "+5"[1..] == "5";
    assert TrimPrefix(TrimPrefix("-+5", "-"), "+") == "5";
    assert ToLower("-+5")[0] == '-';
    SignedDigits("-+5");
    if ParseInteger("-+5").Ok? {
      PlainLiterals("-+5", ParseInteger("-+5").value);
    }
  }

  lemma BooleansAreBare(text: string)
    requires ToLower(text) in ["true", "false"]
    ensures EncodeBool(text).Ok? <==> SpellsBool(text)
  {
    assert LowerChar(text[0]) == ToLower(text)[0] && LowerChar(text[|text| - 1]) == ToLower(text)[|text| - 1];
    TrimKeepsSolidText(text);
  }

  // ---- Registry.Encode and the collections ----------------------------------------

  const MAX_DEPTH: nat := 32

  function Encode(strkeys: set<string>, spec: Spec): Result<ScVal, EncodeError>
    decreases SpecSize(spec), 3
  {
    match SplitSpec(spec)
    case Some((prefix, literal)) =>
      if prefix == "vec" then EncodeVecAt(strkeys, literal, 1)
      else if prefix == "map" then EncodeMapAt(strkeys, literal, 1)
      else if prefix in TYPE_NAMES then EncodeScalar(strkeys, prefix, TextOf(literal))
      else Infer(strkeys, TextOf(spec))
    case None => Infer(strkeys, TextOf(spec))
  }

  /** parseJSONArray. */
  function ParseJsonArray(literal: Spec): (r: Result<seq<Json>, EncodeError>)
    ensures r.Ok? ==> literal.Array? && r.value == literal.items
  {
    if literal.Array? && AllSpace(literal.pre) then Ok(literal.items)
    else if OpensArray(literal) then Err(InvalidJson)
    else Err(NotAnArray)
  }

  function EncodeVecAt(strkeys: set<string>, literal: Spec, depth: nat): Result<ScVal, EncodeError>
    decreases SpecSize(literal), 2
  {
    if depth > MAX_DEPTH then Err(TooDeep)
    else
      var items :- ParseJsonArray(literal);
      var values :- EncodeElements(strkeys, items, depth);
      Ok(Vec(values))
  }

  function EncodeMapAt(strkeys: set<string>, literal: Spec, depth: nat): Result<ScVal, EncodeError>
    decreases SpecSize(literal), 2
  {
    if depth > MAX_DEPTH then Err(TooDeep)
    else
      var items :- ParseJsonArray(literal);
      var entries :- EncodePairs(strkeys, items, depth);
      Ok(Map(entries))
  }

  function EncodeElements(strkeys: set<string>, items: seq<Json>, depth: nat): Result<seq<ScVal>, EncodeError>
    decreases ItemsSize(items), 1
  {
    if items == [] then Ok([])
    else
      var first :- EncodeElementAt(strkeys, items[0], depth);
      var rest :- EncodeElements(strkeys, items[1..], depth);
      Ok([first] + rest)
  }

  function EncodePairs(strkeys: set<string>, items: seq<Json>, depth: nat): Result<seq<MapEntry>, EncodeError>
    decreases ItemsSize(items), 1
  {
    if items == [] then Ok([])
    else
      var first :- EncodePair(strkeys, items[0], depth);
      var rest :- EncodePairs(strkeys, items[1..], depth);
      Ok([first] + rest)
  }

  /** One [key, value] entry of a map; both halves sit at the map's own depth. */
  function EncodePair(strkeys: set<string>, item: Json, depth: nat): Result<MapEntry, EncodeError>
    decreases JsonSize(item), 0
  {
    if !item.JArray? || |item.items| != 2 then Err(NotAPair)
    else
      PairSize(item);
      var key :- EncodeElementAt(strkeys, item.items[0], depth);
      var val :- EncodeElementAt(strkeys, item.items[1], depth);
      Ok(MapEntry(key, val))
  }

  lemma PairSize(item: Json)
    requires item.JArray? && |item.items| == 2
    ensures JsonSize(item.items[0]) < JsonSize(item) && JsonSize(item.items[1]) < JsonSize(item)
  {
    var tail := item.items[1..];
    assert tail[0] == item.items[1] && tail[1..] == [];
    assert ItemsSize(tail) == JsonSize(tail[0]) + ItemsSize(tail[1..]);
  }

  function EncodeElementAt(strkeys: set<string>, item: Json, depth: nat): Result<ScVal, EncodeError>
    decreases JsonSize(item), 0
  {
    match item
    case JString(spec) => Encode(strkeys, spec)
    case JArray(raw, items) => EncodeVecAt(strkeys, Array("", raw, items, ""), depth + 1)
    case JObject(_) => Err(ObjectNotSupported)
    case JLiteral(text) =>
      if text !in ["true", "false", "null"] && !IsIntegerLiteral(text) then Err(NotAnElement)
      else Encode(strkeys, Plain(text))
  }

  // ---- the loops of encodeVecAt, encodeMapAt and EncodeAll ----------------------------

  method EncodeVecLoop(strkeys: set<string>, literal: Spec, depth: nat) returns (r: Result<ScVal, EncodeError>)
    ensures r == EncodeVecAt(strkeys, literal, depth)
  {
    if depth > MAX_DEPTH {
      return Err(TooDeep);
    }
    var items :- ParseJsonArray(literal);
    var vec: seq<ScVal> := [];
    PrependToAll(vec, [], EncodeElements(strkeys, items, depth));
    assert items[0..] == items;
    for i := 0 to |items|
      invariant EncodeElements(strkeys, items, depth) == Prepend(vec, EncodeElements(strkeys, items[i..], depth))
    {
      var v := EncodeElementAt(strkeys, items[i], depth);
      assert items[i..][1..] == items[i + 1..];
      if v.Err? {
        return Err(v.error);
      }
      PrependToAll(vec, [v.value], EncodeElements(strkeys, items[i + 1..], depth));
      vec := vec + [v.value];
    }
    assert items[|items|..] == [] && vec + [] == vec;
    return Ok(Vec(vec));
  }

  method EncodeMapLoop(strkeys: set<string>, literal: Spec, depth: nat) returns (r: Result<ScVal, EncodeError>)
    ensures r == EncodeMapAt(strkeys, literal, depth)
  {
    if depth > MAX_DEPTH {
      return Err(TooDeep);
    }
    var items :- ParseJsonArray(literal);
    var entries: seq<MapEntry> := [];
    PrependToAll(entries, [], EncodePairs(strkeys, items, depth));
    assert items[0..] == items;
    for i := 0 to |items|
      invariant EncodePairs(strkeys, items, depth) == Prepend(entries, EncodePairs(strkeys, items[i..], depth))
    {
      var e := EncodePair(strkeys, items[i], depth);
      assert items[i..][1..] == items[i + 1..];
      if e.Err? {
        return Err(e.error);
      }
      PrependToAll(entries, [e.value], EncodePairs(strkeys, items[i + 1..], depth));
      entries := entries + [e.value];
    }
    assert items[|items|..] == [] && entries + [] == entries;
    return Ok(Map(entries));
  }

  /** EncodeAll: the arguments in order, or the index and cause of the first one that fails. */
  method EncodeAll(strkeys: set<string>, specs: seq<Spec>) returns (r: Result<seq<ScVal>, (nat, EncodeError)>)
    ensures r.Ok? <==> forall i | 0 <= i < |specs| :: Encode(strkeys, specs[i]).Ok?
    ensures r.Ok? ==> |r.value| == |specs| && forall i | 0 <= i < |specs| :: Encode(strkeys, specs[i]) == Ok(r.value[i])
    ensures r.Err? ==> r.error.0 < |specs| && Encode(strkeys, specs[r.error.0]) == Err(r.error.1)
    ensures r.Err? ==> forall i | 0 <= i < r.error.0 :: Encode(strkeys, specs[i]).Ok?
  {
    hide *;
    var out: seq<ScVal> := [];
    for i := 0 to |specs|
      invariant |out| == i && forall k | 0 <= k < i :: Encode(strkeys, specs[k]) == Ok(out[k])
    {
      var v := Encode(strkeys, specs[i]);
      if v.Err? {
        return Err((i, v.error));
      }
      out := out + [v.value];
    }
    return Ok(out);
  }

  // ---- order, count and failure ---------------------------------------------------------

  /** A vec is encoded exactly when every element is, in order and one for one. */
  lemma {:induction false} ElementsPointwise(strkeys: set<string>, items: seq<Json>, depth: nat)
    ensures var r := EncodeElements(strkeys, items, depth);
            && (r.Ok? <==> forall i | 0 <= i < |items| :: EncodeElementAt(strkeys, items[i], depth).Ok?)
            && (r.Ok? ==> |r.value| == |items|)
            && (r.Ok? ==> forall i | 0 <= i < |items| :: EncodeElementAt(strkeys, items[i], depth) == Ok(r.value[i]))
  {
    hide EncodeElementAt;
    if items != [] {
      var rest := items[1..];
      ElementsPointwise(strkeys, rest, depth);
      assert forall i | 1 <= i < |items| :: items[i] == rest[i - 1];
      if EncodeElements(strkeys, items, depth).Ok? {
        var tail := EncodeElements(strkeys, rest, depth).value;
        assert EncodeElements(strkeys, items, depth).value[1..] == tail;
      } else if EncodeElementAt(strkeys, items[0], depth).Ok? {
        var k :| 0 <= k < |rest| && EncodeElementAt(strkeys, rest[k], depth).Err?;
        assert EncodeElementAt(strkeys, items[k + 1], depth).Err?;
      }
    }
  }

  /** A map is encoded exactly when every item is a two-element array whose halves encode; the entries keep
      the order of the items, the first half as key and the second as value. */
  lemma {:induction false} PairsPointwise(strkeys: set<string>, items: seq<Json>, depth: nat)
    ensures var r := EncodePairs(strkeys, items, depth);
            && (r.Ok? <==> forall i | 0 <= i < |items| :: PairEncodes(strkeys, items[i], depth))
            && (r.Ok? ==> |r.value| == |items|)
            && (r.Ok? ==> forall i | 0 <= i < |items| ::
                  && EncodeElementAt(strkeys, items[i].items[0], depth) == Ok(r.value[i].key)
                  && EncodeElementAt(strkeys, items[i].items[1], depth) == Ok(r.value[i].val))
  {
    hide EncodeElementAt;
    if items != [] {
      var rest := items[1..];
      PairsPointwise(strkeys, rest, depth);
      PairHalves(strkeys, items[0], depth);
      assert forall i | 1 <= i < |items| :: items[i] == rest[i - 1];
      if EncodePairs(strkeys, items, depth).Ok? {
        var tail := EncodePairs(strkeys, rest, depth).value;
        assert EncodePairs(strkeys, items, depth).value[1..] == tail;
      } else if PairEncodes(strkeys, items[0], depth) {
        var k :| 0 <= k < |rest| && !PairEncodes(strkeys, rest[k], depth);
        assert !PairEncodes(strkeys, items[k + 1], depth);
      }
    }
  }

  lemma PairHalves(strkeys: set<string>, item: Json, depth: nat)
    ensures EncodePair(strkeys, item, depth).Ok? <==> PairEncodes(strkeys, item, depth)
    ensures PairEncodes(strkeys, item, depth) ==>
              && EncodeElementAt(strkeys, item.items[0], depth) == Ok(EncodePair(strkeys, item, depth).value.key)
              && EncodeElementAt(strkeys, item.items[1], depth) == Ok(EncodePair(strkeys, item, depth).value.val)
  {
    hide EncodeElementAt;
  }

  predicate PairEncodes(strkeys: set<string>, item: Json, depth: nat) {
    && item.JArray? && |item.items| == 2
    && EncodeElementAt(strkeys, item.items[0], depth).Ok?
    && EncodeElementAt(strkeys, item.items[1], depth).Ok?
  }

  // ---- the depth limit ------------------------------------------------------------------

  /** How many array levels an element opens. */
  function Nesting(j: Json): (n: nat)
    decreases j, 0
  {
    if j.JArray? then 1 + DeepestNesting(j.items) else 0
  }

  function DeepestNesting(items: seq<Json>): nat
    decreases items, 0
  {
    if items == [] then 0
    else
      var first, rest := Nesting(items[0]), DeepestNesting(items[1..]);
      if first > rest then first else rest
  }

  /** Every element that is not an array encodes. */
  predicate LeavesEncode(strkeys: set<string>, items: seq<Json>)
    decreases items
  {
    forall i | 0 <= i < |items| ::
      if items[i].JArray? then LeavesEncode(strkeys, items[i].items)
      else EncodeElementAt(strkeys, items[i], 1).Ok?
  }

  /** For pure array nesting whose leaves encode, the nesting limit is exact: from depth d the array is
      accepted when, and only when, it reaches no deeper than level 32. */
  lemma {:induction false} NestingLimit(strkeys: set<string>, raw: ArrayText, items: seq<Json>, depth: nat)
    requires LeavesEncode(strkeys, items) && depth >= 1
    ensures EncodeVecAt(strkeys, Array("", raw, items, ""), depth).Ok? <==> depth + DeepestNesting(items) <= 32
    decreases items
  {
    hide EncodeVecAt, EncodeElements, EncodeElementAt, LeavesEncode, DeepestNesting;
    ElementsPointwise(strkeys, items, depth);
    DeepestIsMaximum(items);
    AcceptedArrays(strkeys, raw, items, depth);
    forall i | 0 <= i < |items|
      ensures EncodeElementAt(strkeys, items[i], depth).Ok? <==>
              depth + Nesting(items[i]) <= MAX_DEPTH || !items[i].JArray?
    {
      ElementForms(strkeys, items, i, depth);
      if items[i].JArray? {
        NestingLimit(strkeys, items[i].raw, items[i].items, depth + 1);
      }
    }
  }

  lemma AcceptedArrays(strkeys: set<string>, raw: ArrayText, items: seq<Json>, depth: nat)
    ensures EncodeVecAt(strkeys, Array("", raw, items, ""), depth).Ok? <==>
            depth <= MAX_DEPTH && EncodeElements(strkeys, items, depth).Ok?
  {
    hide EncodeElements;
  }

  lemma ElementForms(strkeys: set<string>, items: seq<Json>, i: nat, depth: nat)
    requires LeavesEncode(strkeys, items) && i < |items|
    ensures items[i].JArray? ==>
              && LeavesEncode(strkeys, items[i].items)
              && EncodeElementAt(strkeys, items[i], depth) ==
                 EncodeVecAt(strkeys, Array("", items[i].raw, items[i].items, ""), depth + 1)
    ensures !items[i].JArray? ==> EncodeElementAt(strkeys, items[i], depth).Ok?
  {
    hide EncodeVecAt, Encode;
  }

  lemma {:induction false} DeepestIsMaximum(items: seq<Json>)
    ensures forall i | 0 <= i < |items| :: Nesting(items[i]) <= DeepestNesting(items)
    ensures DeepestNesting(items) > 0 ==> exists i | 0 <= i < |items| :: Nesting(items[i]) == DeepestNesting(items)
  {
    if items != [] {
      DeepestIsMaximum(items[1..]);
      assert forall i | 1 <= i < |items| :: items[i] == items[1..][i - 1];
      if DeepestNesting(items) > Nesting(items[0]) {
        var k :| 0 <= k < |items[1..]| && Nesting(items[1..][k]) == DeepestNesting(items[1..]);
        assert Nesting(items[k + 1]) == DeepestNesting(items);
      }
    }
  }

  // ---- Decode -----------------------------------------------------------------------------

  datatype JsonValue =
    | Null
    | Boolean(b: bool)
    | Number(n: int)
    | Text(s: string)
    | List(items: seq<JsonValue>)
    | Object(fields: map<string, JsonValue>)

  datatype DecodeError = Unsupported(tag: string)

  function Decode(v: ScVal): Result<JsonValue, DecodeError>
    decreases v, 1
  {
    match v
    case Void => Ok(Null)
    case Bool(b) => Ok(Boolean(b))
    case U32(n) => Ok(Number(n))
    case I32(n) => Ok(Number(n))
    case Bytes(bytes) => Ok(Text(HexEncode(bytes)))
    case Str(s) => Ok(Text(s))
    case Sym(s) => Ok(Text(s))
    case Address(s) => Ok(Text(s))
    case Vec(items) =>
      var values :- DecodeItems(items);
      Ok(List(values))
    case Map(entries) =>
      var pairs :- DecodePairs(entries);
      Ok(MapValue(pairs))
    case ContractError(t) => Ok(Object(map["type" := Text(t)]))
    case LedgerKeyContractInstance => Ok(Text("contract_instance"))
    case LedgerKeyNonce(n) => Ok(Object(map["nonce" := Text(FormatInt(n))]))
    case Other(tag) => Err(Unsupported(tag))
    case _ => Ok(Text(FormatInt(ToBigInt(v).value)))
  }

  function DecodeItems(items: seq<ScVal>): Result<seq<JsonValue>, DecodeError>
    decreases items, 0
  {
    if items == [] then Ok([])
    else
      var first :- Decode(items[0]);
      var rest :- DecodeItems(items[1..]);
      Ok([first] + rest)
  }

  function DecodePairs(entries: seq<MapEntry>): Result<seq<(JsonValue, JsonValue)>, DecodeError>
    decreases entries, 0
  {
    if entries == [] then Ok([])
    else
      var first :- DecodePair(entries[0]);
      var rest :- DecodePairs(entries[1..]);
      Ok([first] + rest)
  }

  function DecodePair(entry: MapEntry): Result<(JsonValue, JsonValue), DecodeError>
    decreases entry, 0
  {
    var key :- Decode(entry.key);
    var val :- Decode(entry.val);
    Ok((key, val))
  }

  predicate AllTextKeys(pairs: seq<(JsonValue, JsonValue)>) {
    forall i | 0 <= i < |pairs| :: pairs[i].0.Text?
  }

  /** The JSON form of decoded map entries: an object when every key is text, a list of pairs otherwise. */
  function MapValue(pairs: seq<(JsonValue, JsonValue)>): JsonValue {
    if AllTextKeys(pairs) then Object(Fields(pairs))
    else List(seq(|pairs|, i requires 0 <= i < |pairs| => Object(map["key" := pairs[i].0, "value" := pairs[i].1])))
  }

  /** Later entries overwrite earlier ones with the same decoded key. */
  function Fields(pairs: seq<(JsonValue, JsonValue)>): map<string, JsonValue>
    requires AllTextKeys(pairs)
  {
    if pairs == [] then map[] else Fields(pairs[..|pairs| - 1])[pairs[|pairs| - 1].0.s := pairs[|pairs| - 1].1]
  }

  /** decodeMap: collect the decoded pairs, noting whether every key is text, then build the object or list. */
  method DecodeMapLoop(entries: seq<MapEntry>) returns (r: Result<JsonValue, DecodeError>)
    ensures r == Decode(Map(entries))
  {
    var collected := CollectPairs(entries);
    if collected.Err? {
      return Err(collected.error);
    }
    var (pairs, allStringKeys) := collected.value;
    if allStringKeys {
      var fields := BuildObject(pairs);
      return Ok(Object(fields));
    }
    var list := BuildPairList(pairs);
    assert list == MapValue(pairs).items;
    return Ok(List(list));
  }

  method CollectPairs(entries: seq<MapEntry>) returns (r: Result<(seq<(JsonValue, JsonValue)>, bool), DecodeError>)
    ensures r.Ok? ==> DecodePairs(entries) == Ok(r.value.0) && r.value.1 == AllTextKeys(r.value.0)
    ensures r.Err? ==> DecodePairs(entries) == Err(r.error)
  {
    hide Decode;
    var pairs: seq<(JsonValue, JsonValue)> := [];
    var allStringKeys := true;
    PrependToAll(pairs, [], DecodePairs(entries));
    assert entries[0..] == entries;
    for i := 0 to |entries|
      invariant allStringKeys == AllTextKeys(pairs)
      invariant DecodePairs(entries) == Prepend(pairs, DecodePairs(entries[i..]))
    {
      var k, v := Decode(entries[i].key), Decode(entries[i].val);
      assert entries[i..][1..] == entries[i + 1..] && entries[i..][0] == entries[i];
      if k.Err? {
        return Err(k.error);
      }
      if v.Err? {
        return Err(v.error);
      }
      allStringKeys := allStringKeys && k.value.Text?;
      assert (pairs + [(k.value, v.value)])[|pairs|].0 == k.value;
      assert forall j | 0 <= j < |pairs| :: (pairs + [(k.value, v.value)])[j] == pairs[j];
      PrependToAll(pairs, [(k.value, v.value)], DecodePairs(entries[i + 1..]));
      pairs := pairs + [(k.value, v.value)];
    }
    assert entries[|entries|..] == [] && pairs + [] == pairs;
    return Ok((pairs, allStringKeys));
  }

  method BuildObject(pairs: seq<(JsonValue, JsonValue)>) returns (out: map<string, JsonValue>)
    requires AllTextKeys(pairs)
    ensures out == Fields(pairs)
  {
    out := map[];
    for i := 0 to |pairs|
      invariant out == Fields(pairs[..i])
    {
      assert pairs[..i + 1][..i] == pairs[..i];
      out := out[pairs[i].0.s := pairs[i].1];
    }
    assert pairs[..|pairs|] == pairs;
  }

  method BuildPairList(pairs: seq<(JsonValue, JsonValue)>) returns (out: seq<JsonValue>)
    ensures |out| == |pairs|
    ensures forall i | 0 <= i < |pairs| :: out[i] == Object(map["key" := pairs[i].0, "value" := pairs[i].1])
  {
    out := [];
    for i := 0 to |pairs|
      invariant |out| == i && forall k | 0 <= k < i :: out[k] == Object(map["key" := pairs[k].0, "value" := pairs[k].1])
    {
      out := out + [Object(map["key" := pairs[i].0, "value" := pairs[i].1])];
    }
  }

  /** Decoding a vec is decoding each item. */
  lemma {:induction false} ItemsPointwise(items: seq<ScVal>)
    ensures DecodeItems(items).Ok? <==> forall i | 0 <= i < |items| :: Decode(items[i]).Ok?
    ensures DecodeItems(items).Ok? ==> |DecodeItems(items).value| == |items|
    ensures DecodeItems(items).Ok? ==>
              forall i | 0 <= i < |items| :: Decode(items[i]) == Ok(DecodeItems(items).value[i])
  {
    hide Decode;
    if items != [] {
      var rest := items[1..];
      ItemsPointwise(rest);
      assert forall i | 1 <= i < |items| :: items[i] == rest[i - 1];
      if DecodeItems(items).Ok? {
        assert DecodeItems(items).value[1..] == DecodeItems(rest).value;
      } else if Decode(items[0]).Ok? {
        var k :| 0 <= k < |rest| && Decode(rest[k]).Err?;
        assert Decode(items[k + 1]).Err?;
      }
    }
  }

  /** Decode after encode, for a vec: the element-wise Decode of the elements' own encodings. */
  lemma VecDecodesElementwise(strkeys: set<string>, literal: Spec, depth: nat)
    requires EncodeVecAt(strkeys, literal, depth).Ok?
    ensures var v := EncodeVecAt(strkeys, literal, depth).value;
            && literal.Array? && v.Vec? && |v.items| == |literal.items|
            && (forall i | 0 <= i < |v.items| :: EncodeElementAt(strkeys, literal.items[i], depth) == Ok(v.items[i]))
            && (Decode(v).Ok? <==> forall i | 0 <= i < |v.items| :: Decode(v.items[i]).Ok?)
            && (Decode(v).Ok? ==> Decode(v).value.List? && |Decode(v).value.items| == |v.items|)
            && (Decode(v).Ok? ==> forall i | 0 <= i < |v.items| :: Decode(v.items[i]) == Ok(Decode(v).value.items[i]))
  {
    hide EncodeVecAt, EncodeElements, EncodeElementAt, Decode, DecodeItems;
    VecOfElements(strkeys, literal, depth);
    ElementsPointwise(strkeys, literal.items, depth);
    var items := EncodeVecAt(strkeys, literal, depth).value.items;
    ItemsPointwise(items);
    ListOfItems(items);
  }

  lemma VecOfElements(strkeys: set<string>, literal: Spec, depth: nat)
    requires EncodeVecAt(strkeys, literal, depth).Ok?
    ensures literal.Array? && EncodeElements(strkeys, literal.items, depth).Ok?
    ensures EncodeVecAt(strkeys, literal, depth).value == Vec(EncodeElements(strkeys, literal.items, depth).value)
  {
    hide EncodeElements;
  }

  lemma ListOfItems(items: seq<ScVal>)
    ensures Decode(Vec(items)).Ok? <==> DecodeItems(items).Ok?
    ensures DecodeItems(items).Ok? ==> Decode(Vec(items)) == Ok(List(DecodeItems(items).value))
  {
    hide DecodeItems;
  }

  predicate DistinctKeys(pairs: seq<(JsonValue, JsonValue)>) {
    forall i, j | 0 <= i < j < |pairs| :: pairs[i].0 != pairs[j].0
  }

  /** No later entry has the key of entry i. */
  predicate IsLast(pairs: seq<(JsonValue, JsonValue)>, i: nat)
    requires i < |pairs|
  {
    forall j | i < j < |pairs| :: pairs[j].0 != pairs[i].0
  }

  /** An object keeps one field per entry exactly when the decoded keys are distinct: entries whose keys
      decode to the same text are merged, the last one winning. */
  lemma {:induction false} ObjectsKeepEveryEntry(pairs: seq<(JsonValue, JsonValue)>)
    requires AllTextKeys(pairs)
    ensures |Fields(pairs)| <= |pairs|
    ensures |Fields(pairs)| == |pairs| <==> DistinctKeys(pairs)
    ensures forall k :: k in Fields(pairs) <==> exists i | 0 <= i < |pairs| :: pairs[i].0.s == k
  {
    if pairs != [] {
      var init, last := pairs[..|pairs| - 1], pairs[|pairs| - 1];
      assert pairs == init + [last];
      ObjectsKeepEveryEntry(init);
      DistinctUpTo(pairs);
      assert Fields(pairs).Keys == Fields(init).Keys + {last.0.s};
      assert |Fields(pairs)| == |Fields(pairs).Keys| && |Fields(init)| == |Fields(init).Keys|;
      if last.0.s in Fields(init) {
        assert Fields(pairs).Keys == Fields(init).Keys;
      }
    }
  }

  lemma DistinctUpTo(pairs: seq<(JsonValue, JsonValue)>)
    requires AllTextKeys(pairs) && pairs != []
    ensures var init, last := pairs[..|pairs| - 1], pairs[|pairs| - 1];
            DistinctKeys(pairs) <==> DistinctKeys(init) && forall i | 0 <= i < |init| :: init[i].0.s != last.0.s
  {
    var init := pairs[..|pairs| - 1];
    assert forall i | 0 <= i < |init| :: pairs[i] == init[i];
  }

  /** Of the entries whose keys decode to the same text, the last one is kept. */
  lemma {:induction false} LastEntryWins(pairs: seq<(JsonValue, JsonValue)>, i: nat)
    requires AllTextKeys(pairs) && i < |pairs| && IsLast(pairs, i)
    ensures pairs[i].0.s in Fields(pairs) && Fields(pairs)[pairs[i].0.s] == pairs[i].1
  {
    if i < |pairs| - 1 {
      var init := pairs[..|pairs| - 1];
      assert forall j | 0 <= j < |init| :: init[j] == pairs[j];
      assert pairs[|pairs| - 1].0 != pairs[i].0;
      LastEntryWins(init, i);
    }
  }

  /** Two different keys can decode to the same text, so a decoded map can lose entries. */
  lemma MergedKeys()
    ensures var entries := [MapEntry(U64(5), Void), MapEntry(Sym("5"), Bool(true))];
            entries[0].key != entries[1].key && Decode(Map(entries)) == Ok(Object(map["5" := Boolean(true)]))
  {
    var entries := [MapEntry(U64(5), Void), MapEntry(Sym("5"), Bool(true))];
    var pairs := [(Text("5"), Null), (Text("5"), Boolean(true))];
    hide DecodePairs, DecodePair, Fields, FormatInt, Value, Format;
    NumberAndSymbol();
    TwoPairs(entries, pairs);
    TwoFields(pairs);
  }

  lemma NumberAndSymbol()
    ensures DecodePair(MapEntry(U64(5), Void)) == Ok((Text("5"), Null))
    ensures DecodePair(MapEntry(Sym("5"), Bool(true))) == Ok((Text("5"), Boolean(true)))
  {
    assert FormatInt(5) == "5";
  }

  lemma TwoFields(pairs: seq<(JsonValue, JsonValue)>)
    requires |pairs| == 2 && AllTextKeys(pairs) && pairs[0].0 == pairs[1].0
    ensures Fields(pairs) == map[pairs[1].0.s := pairs[1].1]
  {
    assert pairs[..1] == [pairs[0]] && pairs[..1][..0] == [];
    assert Fields(pairs[..1]) == map[pairs[0].0.s := pairs[0].1];
  }

  lemma TwoPairs(entries: seq<MapEntry>, pairs: seq<(JsonValue, JsonValue)>)
    requires |entries| == |pairs| == 2
    requires DecodePair(entries[0]) == Ok(pairs[0]) && DecodePair(entries[1]) == Ok(pairs[1])
    ensures DecodePairs(entries) == Ok(pairs)
  {
    hide DecodePair;
    var tail := entries[1..];
    assert tail[0] == entries[1] && tail[1..] == [];
    assert DecodePairs(tail) == Ok([pairs[1]] + []);
    assert [pairs[0]] + ([pairs[1]] + []) == pairs;
  }

  /** Wide integers decode to their canonical decimal text and 32-bit ones to the number itself, so that
      decoding undoes encoding for every integer type. */
  lemma IntegersDecodeCanonically(t: IntType, n: int)
    requires t.Holds(n)
    ensures EncodeInteger(t, FormatInt(n)).Ok?
    ensures Decode(EncodeInteger(t, FormatInt(n)).value) ==
            Ok(if t.TU32? || t.TI32? then Number(n) else Text(FormatInt(n)))
  {
    ParseFormatInt(n);
    MadeIntegersReadBack(t, n);
  }

  /** A canonical decimal text in the range of a 64-bit type or a wider one survives encoding and decoding as it is
      written; the 32-bit types give its number. */
  lemma CanonicalTextSurvives(t: IntType, s: string)
    requires IsCanonical(s)
    ensures SetString(s).Some?
    ensures EncodeInteger(t, s).Ok? <==> t.Holds(SetString(s).value)
    ensures EncodeInteger(t, s).Ok? ==>
              Decode(EncodeInteger(t, s).value) ==
              Ok(if t.TU32? || t.TI32? then Number(SetString(s).value) else Text(s))
  {
    hide Decode, EncodeInteger, IntType.Holds;
    CanonicalTextsAreKept(s);
    var n := SetString(s).value;
    IntegerRoundTrip(t, n);
    if t.Holds(n) {
      IntegersDecodeCanonically(t, n);
    }
  }

  /** Decoding map entries is decoding each key and each value, in order. */
  lemma {:induction false} EntriesPointwise(entries: seq<MapEntry>)
    ensures DecodePairs(entries).Ok? <==>
            forall i | 0 <= i < |entries| :: Decode(entries[i].key).Ok? && Decode(entries[i].val).Ok?
    ensures DecodePairs(entries).Ok? ==>
            && |DecodePairs(entries).value| == |entries|
            && forall i | 0 <= i < |entries| ::
                 && Decode(entries[i].key) == Ok(DecodePairs(entries).value[i].0)
                 && Decode(entries[i].val) == Ok(DecodePairs(entries).value[i].1)
  {
    hide Decode;
    if entries != [] {
      var rest := entries[1..];
      EntriesPointwise(rest);
      assert forall i | 1 <= i < |entries| :: entries[i] == rest[i - 1];
      if DecodePairs(entries).Ok? {
        assert DecodePairs(entries).value[1..] == DecodePairs(rest).value;
      } else if DecodePair(entries[0]).Ok? {
        var k :| 0 <= k < |rest| && !(Decode(rest[k].key).Ok? && Decode(rest[k].val).Ok?);
        assert rest[k] == entries[k + 1];
      }
    }
  }

  // ---- bytes ------------------------------------------------------------------------------

  /** Bytes decode to hex text that encodes back to the same bytes. */
  lemma BytesRoundTrip(bytes: seq<uint8>)
    ensures Decode(Bytes(bytes)) == Ok(Text(HexEncode(bytes)))
    ensures EncodeBytes(HexEncode(bytes)) == Ok(Bytes(bytes))
  {
    hide HexEncode, HexDecode;
    HexRoundTrip(bytes);
    HexIsBare(HexEncode(bytes));
  }

  /** Hex text has nothing for unquote, TrimSpace or the "0x" prefix to take away. */
  lemma HexIsBare(s: string)
    requires IsHex(s)
    ensures TrimPrefix(TrimSpace(Unquote(s)), "0x") == s
  {
    assert Unquote(s) == s;
    TrimKeepsSolidText(s);
    assert |s| >= 2 ==> HexDigit(s[1]).Some?;
  }
}
