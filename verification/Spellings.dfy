/** How values are spelled: which texts stand for which values, in both directions. */
module Spellings {
  import opened Wrappers
  import opened Text
  import opened Decimal
  import opened Hex
  import opened ScVals
  import opened Codec
  import opened Annotate

  // ---- scalars ----------------------------------------------------------------------------------

  /** The name of a scalar type; a collection has none here. */
  function TypeName(v: ScVal): string {
    match v
    case Void => "void"
    case Bool(_) => "bool"
    case U32(_) => "u32"
    case I32(_) => "i32"
    case U64(_) => "u64"
    case I64(_) => "i64"
    case U128(_, _) => "u128"
    case I128(_, _) => "i128"
    case U256(_, _, _, _) => "u256"
    case I256(_, _, _, _) => "i256"
    case Timepoint(_) => "timepoint"
    case Duration(_) => "duration"
    case Bytes(_) => "bytes"
    case Str(_) => "string"
    case Sym(_) => "symbol"
    case Address(_) => "address"
    case _ => ""
  }

  /** Its name, and the other one that some types have. */
  predicate IsNamed(v: ScVal, name: string) {
    || (name == TypeName(v) && name != "")
    || (v.Void? && name == "null")
    || (v.Str? && name == "str")
    || (v.Sym? && name == "sym")
    || (v.Address? && name == "addr")
  }

  /** A scalar value as text. */
  function ScalarText(v: ScVal): string {
    match v
    case Bool(b) => if b then "true" else "false"
    case Bytes(bytes) => HexEncode(bytes)
    case Str(s) => s
    case Sym(s) => s
    case Address(s) => s
    case _ => if ToBigInt(v).Some? then FormatInt(ToBigInt(v).value) else "null"
  }

  /** JSON scalars as text. */
  function JsonText(j: JsonValue): string {
    match j
    case Boolean(b) => if b then "true" else "false"
    case Number(n) => FormatInt(n)
    case Text(s) => s
    case _ => "null"
  }

  /** The text is what decoding shows, and booleans and 32-bit numbers stay what they are. */
  lemma DecodingShowsTheText(v: ScVal)
    requires TypeName(v) != ""
    ensures Decode(v).Ok? && JsonText(Decode(v).value) == ScalarText(v)
    ensures v.Bool? ==> Decode(v) == Ok(Boolean(v.b))
    ensures v.U32? ==> Decode(v) == Ok(Number(v.u32))
    ensures v.I32? ==> Decode(v) == Ok(Number(v.i32))
  {
    hide FormatInt, HexEncode, Words.FromWords, DecodeItems, DecodePairs;
  }

  predicate Quoted(s: string) {
    |s| >= 2 && s[0] == s[|s| - 1] && s[0] in "\"'"
  }

  /** At most 32 letters, digits and underscores. */
  predicate LegalSymbol(s: string) {
    && |s| <= 32
    && forall i | 0 <= i < |s| ::
         || 'a' <= s[i] <= 'z'
         || 'A' <= s[i] <= 'Z'
         || '0' <= s[i] <= '9'
         || s[i] == '_'
  }

  /** What symbols, strings and addresses ask of their text. */
  predicate Writable(strkeys: set<string>, v: ScVal) {
    match v
    case Str(s) => !Quoted(s)
    case Sym(s) => LegalSymbol(s)
    case Address(s) => s in strkeys
    case _ => true
  }

  /** Addresses are bare texts. */
  predicate BareKeys(strkeys: set<string>) {
    forall k | k in strkeys :: TrimSpace(Unquote(k)) == k
  }

  /** A type name in any case, a colon, and the literal. */
  lemma AnyCasePrefix(prefix: string, rest: string)
    requires ToLower(prefix) != "" && IsTypeName(ToLower(prefix))
    ensures SplitSpec(Plain(prefix + ":" + rest)) == Some((ToLower(prefix), Plain(rest)))
  {
    hide IndexFrom, SpecSize;
    var head := prefix + [':'] + rest;
    assert prefix + ":" + rest == head;
    assert forall i | 0 <= i < |prefix| :: IsNameChar(ToLower(prefix)[i]) && ToLower(prefix)[i] == LowerChar(prefix[i]);
    assert ':' !in prefix;
    IndexIsFirst(prefix, ':', rest);
    assert head[..|prefix|] == prefix && head[|prefix| + 1..] == rest;
  }

  lemma NamesAreRegistered(v: ScVal, name: string)
    requires IsNamed(v, name)
    ensures name != "" && IsTypeName(name) && name in TYPE_NAMES && name != "vec" && name != "map"
  {
    hide IsTypeName;
    RegisteredNames(name);
  }

  /** The text of a scalar, under any name of its type in any case, encodes to that value exactly when the value asks
      nothing of its text that the text does not have. */
  lemma ScalarsReadBack(strkeys: set<string>, v: ScVal, prefix: string)
    requires BareKeys(strkeys) && IsNamed(v, ToLower(prefix))
    ensures Encode(strkeys, Plain(prefix + ":" + ScalarText(v))) == Ok(v) <==> Writable(strkeys, v)
  {
    hide Encode, EncodeScalar, SplitSpec, IsNamed, ScalarText, Writable, ToLower, BareKeys;
    NamesAreRegistered(v, ToLower(prefix));
    AnyCasePrefix(prefix, ScalarText(v));
    TypedText(strkeys, Plain(prefix + ":" + ScalarText(v)), ToLower(prefix), ScalarText(v));
    if IntTypeOf(v).Some? {
      IntegerReadsBack(strkeys, v, ToLower(prefix));
    } else {
      OtherReadsBack(strkeys, v, ToLower(prefix));
    }
  }

  lemma TypedText(strkeys: set<string>, spec: Spec, name: string, text: string)
    requires SplitSpec(spec) == Some((name, Plain(text))) && name in TYPE_NAMES && name != "vec" && name != "map"
    ensures Encode(strkeys, spec) == EncodeScalar(strkeys, name, text)
  {
    hide EncodeScalar, Infer, SplitSpec;
  }

  lemma IntegerReadsBack(strkeys: set<string>, v: ScVal, name: string)
    requires IntTypeOf(v).Some? && IsNamed(v, name)
    ensures EncodeScalar(strkeys, name, ScalarText(v)) == Ok(v) && Writable(strkeys, v)
  {
    hide EncodeInteger, FormatInt, Words.FromWords;
    IntegerValueRoundTrip(v);
  }

  lemma OtherReadsBack(strkeys: set<string>, v: ScVal, name: string)
    requires BareKeys(strkeys) && IntTypeOf(v).None? && IsNamed(v, name)
    ensures EncodeScalar(strkeys, name, ScalarText(v)) == Ok(v) <==> Writable(strkeys, v)
  {
    hide EncodeScalar, EncodeBool, EncodeSymbol, EncodeBytes, EncodeAddress, ParseUint64, HexEncode, FormatInt;
    hide TrimSpace;
    EncoderNamed(strkeys, name, ScalarText(v));
    match v
    case Bool(_) =>
      PlainBooleans();
    case Timepoint(n) =>
      CountReadsBack(n);
    case Duration(n) =>
      CountReadsBack(n);
    case Bytes(bytes) =>
      BytesRoundTrip(bytes);
    case Str(s) =>
      StringReadsBack(s);
    case Sym(s) =>
      SymbolReadsBack(s);
    case Address(s) =>
      AddressReadsBack(strkeys, s);
    case _ =>
  }

  /** Whose encoder a name calls. */
  lemma EncoderNamed(strkeys: set<string>, name: string, text: string)
    ensures name == "bool" ==> EncodeScalar(strkeys, name, text) == EncodeBool(text)
    ensures name in ["void", "null"] ==> EncodeScalar(strkeys, name, text) == Ok(Void)
    ensures name in ["timepoint", "duration"] ==>
              EncodeScalar(strkeys, name, text) ==
              (if ParseUint64(TrimSpace(text)).None? then Err(NotAnUnsignedCount)
               else if name == "timepoint" then Ok(Timepoint(ParseUint64(TrimSpace(text)).value))
               else Ok(Duration(ParseUint64(TrimSpace(text)).value)))
    ensures name in ["sym", "symbol"] ==> EncodeScalar(strkeys, name, text) == EncodeSymbol(text)
    ensures name == "bytes" ==> EncodeScalar(strkeys, name, text) == EncodeBytes(text)
    ensures name in ["addr", "address"] ==> EncodeScalar(strkeys, name, text) == EncodeAddress(strkeys, text)
    ensures name in ["str", "string"] ==> EncodeScalar(strkeys, name, text) == Ok(Str(Unquote(text)))
  {
    hide EncodeInteger, EncodeBool, EncodeSymbol, EncodeBytes, EncodeAddress, ParseUint64, TrimSpace, Unquote;
  }

  lemma PlainBooleans()
    ensures EncodeBool("true") == Ok(Bool(true)) && EncodeBool("false") == Ok(Bool(false))
  {
    TrimKeepsSolidText("true");
    TrimKeepsSolidText("false");
  }

  lemma StringReadsBack(s: string)
    ensures Unquote(s) == s <==> !Quoted(s)
  {
  }

  lemma AddressReadsBack(strkeys: set<string>, s: string)
    requires BareKeys(strkeys)
    ensures EncodeAddress(strkeys, s) == Ok(Address(s)) <==> s in strkeys
  {
    hide TrimSpace, Unquote;
  }

  lemma CountReadsBack(n: Words.uint64)
    ensures ParseUint64(TrimSpace(FormatInt(n))) == Some(n)
  {
    hide TrimSpace;
    PrintedNumbersAreSolid(n);
    FormatValue(n);
  }

  lemma SymbolReadsBack(s: string)
    ensures EncodeSymbol(s) == Ok(Sym(s)) <==> LegalSymbol(s)
  {
    if LegalSymbol(s) && s != "" {
      assert s[0] != '"' && s[0] != '\'';
    }
  }

  // ---- the other spellings of a scalar ------------------------------------------------------------

  /** A literal is a boolean exactly when, trimmed, it is one of the spellings; they mean what "true" and "false"
      mean. */
  lemma BooleansAgree(text: string)
    ensures EncodeBool(text).Ok? <==> SpellsBool(TrimSpace(text))
    ensures EncodeBool(text).Ok? ==>
              EncodeBool(text) == EncodeBool(if ToLower(TrimSpace(text)) in ["1", "t", "true"] then "true" else "false")
    ensures EncodeBool("true") == Ok(Bool(true)) && EncodeBool("false") == Ok(Bool(false))
  {
    hide TrimSpace;
    PlainBooleans();
    if EncodeBool(text).Ok? {
      LowerBooleans(TrimSpace(text));
    }
  }

  lemma LowerBooleans(s: string)
    requires SpellsBool(s)
    ensures ToLower(s) in ["1", "t", "true"] <==> s in ["1", "t", "T", "true", "TRUE", "True"]
  {
    hide ToLower;
    var lower := ToLower(s);
    assert |s| == 1 ==> lower == [LowerChar(s[0])];
    assert |s| == 4 ==> lower == [LowerChar(s[0]), LowerChar(s[1]), LowerChar(s[2]), LowerChar(s[3])];
    assert |s| == 5 ==> |lower| == 5;
    assert s in ["true", "TRUE", "True"] ==> lower == ['t', 'r', 'u', 'e'];
  }

  /** A point in time, or a duration, is accepted exactly when an unsigned 64-bit integer in bare digits is, and is the
      same number. */
  lemma CountsAreUnsigned(strkeys: set<string>, text: string, n: Words.uint64)
    ensures EncodeScalar(strkeys, "timepoint", text) == Ok(Timepoint(n)) <==>
            EncodeScalar(strkeys, "u64", text) == Ok(U64(n)) && IsDigits(TrimSpace(text))
    ensures EncodeScalar(strkeys, "duration", text) == Ok(Duration(n)) <==>
            EncodeScalar(strkeys, "u64", text) == Ok(U64(n)) && IsDigits(TrimSpace(text))
  {
    hide TrimSpace, Value, SetString, ParseInteger;
    EncoderNamed(strkeys, "timepoint", text);
    EncoderNamed(strkeys, "duration", text);
    var s := TrimSpace(text);
    if IsDigits(s) && s != "" {
      assert '@' !in s;
      SetStringOfDigits(s);
      PlainLiterals(text, Value(s));
    } else if s == "" {
      NothingIsNoInteger(text);
    }
  }

  lemma NothingIsNoInteger(text: string)
    requires TrimSpace(text) == ""
    ensures ParseInteger(text).Err?
  {
  }

  /** Between quotes of either kind every string is kept as it is. */
  lemma QuotedTextIsKept(strkeys: set<string>, s: string, quote: char, name: string)
    requires quote in "\"'" && name in ["str", "string"]
    ensures Encode(strkeys, Plain(name + ":" + ([quote] + s + [quote]))) == Ok(Str(s))
  {
    hide Encode, EncodeScalar, SplitSpec;
    var text := [quote] + s + [quote];
    NamesAreRegistered(Str(s), name);
    LowerNames(name);
    AnyCasePrefix(name, text);
    TypedText(strkeys, Plain(name + ":" + text), name, text);
    EncoderNamed(strkeys, name, text);
    assert text[1..|text| - 1] == s;
  }

  lemma LowerNames(name: string)
    requires IsTypeName(name)
    ensures ToLower(name) == name
  {
    assert forall i | 0 <= i < |name| :: LowerChar(name[i]) == name[i];
  }

  /** Bytes are written in hex of either case, in quotes or not, behind "0x" or not. */
  lemma BytesAreHexText(literal: string, bytes: seq<uint8>)
    ensures EncodeBytes(literal) == Ok(Bytes(bytes)) <==>
            ToLower(TrimPrefix(TrimSpace(Unquote(literal)), "0x")) == HexEncode(bytes)
    ensures EncodeBytes("0x" + HexEncode(bytes)) == Ok(Bytes(bytes))
  {
    hide TrimSpace, HexDecode, HexEncode, ToLower;
    HexDecodeExactly(TrimPrefix(TrimSpace(Unquote(literal)), "0x"), bytes);
    var s := "0x" + HexEncode(bytes);
    HexRoundTrip(bytes);
    assert Unquote(s) == s;
    assert !IsSpace(s[|s| - 1]) by {
      assert s[|s| - 1] == 'x' || HexDigit(s[|s| - 1]).Some?;
    }
    TrimKeepsSolidText(s);
    assert TrimPrefix(s, "0x") == HexEncode(bytes);
  }

  /** An argument names its type exactly when it is void or null, or begins with a registered name in any case and a
      colon. */
  lemma TypedExactly(text: string)
    ensures HasType(Plain(text)) <==>
            || ToLower(text) in ["void", "null"]
            || exists prefix, rest :: ToLower(prefix) in TYPE_NAMES && text == prefix + ":" + rest
  {
    hide SplitSpec, ToLower;
    if SplitSpec(Plain(text)).Some? && SplitSpec(Plain(text)).value.0 in TYPE_NAMES {
      var prefix, rest := SplitAtColon(text);
    }
    forall prefix, rest | ToLower(prefix) in TYPE_NAMES && text == prefix + ":" + rest
      ensures HasType(Plain(text))
    {
      RegisteredNames(ToLower(prefix));
      AnyCasePrefix(prefix, rest);
    }
  }

  /** What opens an array is the text, trimmed or as it is. */
  lemma BracketsAreSeen(literal: Spec)
    ensures OpensArray(literal) <==> TrimSpace(TextOf(literal)) != "" && TrimSpace(TextOf(literal))[0] == '['
    ensures StartsWithBracket(literal) <==> TextOf(literal) != "" && TextOf(literal)[0] == '['
  {
    hide TrimSpace;
    if literal.Array? && AllSpace(literal.pre) {
      var text := TextOf(literal);
      assert text == literal.pre + (literal.raw + literal.post);
      TrimBehindSpace(literal.pre, literal.raw + literal.post);
    }
  }

  lemma TrimBehindSpace(pre: string, s: string)
    requires AllSpace(pre) && s != "" && !IsSpace(s[0])
    ensures TrimSpace(pre + s) != "" && TrimSpace(pre + s)[0] == s[0]
  {
    hide TrimLeft, TrimRight;
    TrimLeftOf(pre, s);
    SolidLeft(s);
    TrimRightKeepsFirst(s);
  }

  lemma SplitAtColon(text: string) returns (prefix: string, rest: string)
    requires SplitSpec(Plain(text)).Some?
    ensures text == prefix + ":" + rest && SplitSpec(Plain(text)).value.0 == ToLower(prefix)
  {
    hide IndexFrom, ToLower;
    var colon := Index(text, ':');
    prefix, rest := text[..colon], text[colon + 1..];
  }

  lemma RegisteredNames(name: string)
    requires name in TYPE_NAMES
    ensures name != "" && IsTypeName(name)
  {
  }

  // ---- whole values -------------------------------------------------------------------------------

  /** A spelling of the value: strings in quotes, collections as lists of spellings. */
  function Spelling(v: ScVal): Spec
    decreases v, 1
  {
    match v
    case Vec(items) => WithPrefix("vec", Marshal(ItemSpellings(items)))
    case Map(entries) => WithPrefix("map", MarshalPairs(EntrySpellings(entries)))
    case Str(s) => Plain("string" + ":" + (['"'] + s + ['"']))
    case _ => Plain(TypeName(v) + ":" + ScalarText(v))
  }

  function ItemSpellings(items: seq<ScVal>): (specs: seq<Spec>)
    ensures |specs| == |items| && forall i | 0 <= i < |items| :: specs[i] == Spelling(items[i])
    decreases items, 0
  {
    seq(|items|, i requires 0 <= i < |items| => Spelling(items[i]))
  }

  function EntrySpellings(entries: seq<MapEntry>): (pairs: seq<(Spec, Spec)>)
    ensures |pairs| == |entries|
    ensures forall i | 0 <= i < |entries| :: pairs[i] == EntrySpelling(entries[i])
    decreases entries, 0
  {
    seq(|entries|, i requires 0 <= i < |entries| => EntrySpelling(entries[i]))
  }

  function EntrySpelling(entry: MapEntry): (Spec, Spec)
    decreases entry, 0
  {
    (Spelling(entry.key), Spelling(entry.val))
  }

  /** Every symbol in the value is legal and every address valid, and there is nothing in it that only the network
      makes. */
  predicate CanBeSpelled(strkeys: set<string>, v: ScVal)
    decreases v
  {
    match v
    case Vec(items) => forall i | 0 <= i < |items| :: CanBeSpelled(strkeys, items[i])
    case Map(entries) =>
      forall i | 0 <= i < |entries| ::
        CanBeSpelled(strkeys, entries[i].key) && CanBeSpelled(strkeys, entries[i].val)
    case Str(_) => true
    case _ => TypeName(v) != "" && Writable(strkeys, v)
  }

  /** Every such value, however deep, is what its spelling encodes to. */
  lemma {:induction false} SpellingsReadBack(strkeys: set<string>, v: ScVal)
    requires BareKeys(strkeys) && CanBeSpelled(strkeys, v)
    ensures Encode(strkeys, Spelling(v)) == Ok(v)
    decreases v
  {
    hide Encode, TypeName, ScalarText, Writable, Marshal, MarshalPairs, WithPrefix, BareKeys;
    match v
    case Vec(items) =>
      forall i | 0 <= i < |items|
        ensures Encode(strkeys, Spelling(items[i])) == Ok(items[i])
      {
        SpellingsReadBack(strkeys, items[i]);
      }
      ListReadsBack(strkeys, items);
    case Map(entries) =>
      forall i | 0 <= i < |entries|
        ensures Encode(strkeys, Spelling(entries[i].key)) == Ok(entries[i].key)
        ensures Encode(strkeys, Spelling(entries[i].val)) == Ok(entries[i].val)
      {
        SpellingsReadBack(strkeys, entries[i].key);
        SpellingsReadBack(strkeys, entries[i].val);
      }
      TableReadsBack(strkeys, entries);
    case Str(s) =>
      QuotedTextIsKept(strkeys, s, '"', "string");
    case _ =>
      NamesAreRegistered(v, TypeName(v));
      LowerNames(TypeName(v));
      ScalarsReadBack(strkeys, v, TypeName(v));
  }

  lemma ListReadsBack(strkeys: set<string>, items: seq<ScVal>)
    requires forall i | 0 <= i < |items| :: Encode(strkeys, Spelling(items[i])) == Ok(items[i])
    ensures Encode(strkeys, Spelling(Vec(items))) == Ok(Vec(items))
  {
    hide Encode, WithPrefix, QuoteAll, EncodeElements;
    var list := Marshal(ItemSpellings(items));
    VecTextEncodes(strkeys, list);
    ElementsPointwise(strkeys, list.items, 1);
    assert forall i | 0 <= i < |items| ::
        EncodeElementAt(strkeys, list.items[i], 1) == Encode(strkeys, Spelling(items[i]));
    var r := EncodeElements(strkeys, list.items, 1);
    assert r.Ok? && r.value == items;
  }

  lemma TableReadsBack(strkeys: set<string>, entries: seq<MapEntry>)
    requires forall i | 0 <= i < |entries| ::
               && Encode(strkeys, Spelling(entries[i].key)) == Ok(entries[i].key)
               && Encode(strkeys, Spelling(entries[i].val)) == Ok(entries[i].val)
    ensures Encode(strkeys, WithPrefix("map", MarshalPairs(EntrySpellings(entries)))) == Ok(Map(entries))
  {
    hide Encode, WithPrefix, QuotePairs, QuoteAll, EncodePairs, EncodeElementAt, SpecSize, JsonSize, ItemsSize;
    hide Spelling;
    var list := MarshalPairs(EntrySpellings(entries));
    VecTextEncodes(strkeys, list);
    PairsPointwise(strkeys, list.items, 1);
    forall i | 0 <= i < |entries|
      ensures PairEncodes(strkeys, list.items[i], 1)
      ensures EncodeElementAt(strkeys, list.items[i].items[0], 1) == Ok(entries[i].key)
      ensures EncodeElementAt(strkeys, list.items[i].items[1], 1) == Ok(entries[i].val)
    {
      assert list.items[i].items == [JString(Spelling(entries[i].key)), JString(Spelling(entries[i].val))];
      StringElement(strkeys, Spelling(entries[i].key));
      StringElement(strkeys, Spelling(entries[i].val));
    }
    var r := EncodePairs(strkeys, list.items, 1);
    assert r.Ok? && r.value == entries;
  }

  lemma StringElement(strkeys: set<string>, spec: Spec)
    ensures EncodeElementAt(strkeys, JString(spec), 1) == Encode(strkeys, spec)
  {
    hide Encode;
  }

  // ---- no other value is spelled ---------------------------------------------------------------------

  lemma ScalarsCanBeSpelled(strkeys: set<string>, name: string, text: string)
    requires name in TYPE_NAMES && EncodeScalar(strkeys, name, text).Ok?
    ensures CanBeSpelled(strkeys, EncodeScalar(strkeys, name, text).value)
  {
    hide EncodeInteger, EncodeBool, EncodeSymbol, EncodeBytes, EncodeAddress, ParseUint64, TrimSpace, Unquote;
    ScalarForms(strkeys, text);
    SymbolsAreLegal(text);
    AddressesAreValid(strkeys, text);
    if IntegerTypeNamed(name).Some? {
      EncodedIntegersHaveTheirType(IntegerTypeNamed(name).value, text);
    }
  }

  lemma SymbolsAreLegal(text: string)
    ensures EncodeSymbol(text).Ok? ==> LegalSymbol(EncodeSymbol(text).value.sym)
  {
  }

  lemma AddressesAreValid(strkeys: set<string>, text: string)
    ensures EncodeAddress(strkeys, text).Ok? ==> EncodeAddress(strkeys, text).value.address in strkeys
  {
  }

  lemma InferredCanBeSpelled(strkeys: set<string>, text: string)
    requires Infer(strkeys, text).Ok?
    ensures CanBeSpelled(strkeys, Infer(strkeys, text).value)
  {
    hide EncodeInteger, EncodeBool, EncodeSymbol, EncodeAddress, ToLower, IsIntegerLiteral, IsSymbolLiteral, Unquote;
    ScalarForms(strkeys, text);
    SymbolsAreLegal(text);
    AddressesAreValid(strkeys, text);
    EncodedIntegersHaveTheirType(TI128, text);
  }

  lemma {:induction false} ItemFits(items: seq<Json>, i: nat)
    requires i < |items|
    ensures JsonSize(items[i]) <= ItemsSize(items)
  {
    if i > 0 {
      ItemFits(items[1..], i - 1);
    }
  }

  lemma {:induction false} EncodedCanBeSpelled(strkeys: set<string>, spec: Spec)
    requires Encode(strkeys, spec).Ok?
    ensures CanBeSpelled(strkeys, Encode(strkeys, spec).value)
    decreases SpecSize(spec), 3
  {
    hide EncodeVecAt, EncodeMapAt, EncodeScalar, Infer, CanBeSpelled, SpecSize;
    if SplitSpec(spec).Some? && SplitSpec(spec).value.0 in TYPE_NAMES {
      var (prefix, literal) := SplitSpec(spec).value;
      if prefix == "vec" {
        VecCanBeSpelled(strkeys, literal, 1);
      } else if prefix == "map" {
        MapCanBeSpelled(strkeys, literal, 1);
      } else {
        ScalarsCanBeSpelled(strkeys, prefix, TextOf(literal));
      }
    } else {
      InferredCanBeSpelled(strkeys, TextOf(spec));
    }
  }

  lemma {:induction false} VecCanBeSpelled(strkeys: set<string>, literal: Spec, depth: nat)
    requires EncodeVecAt(strkeys, literal, depth).Ok?
    ensures CanBeSpelled(strkeys, EncodeVecAt(strkeys, literal, depth).value)
    decreases SpecSize(literal), 2
  {
    hide EncodeElements, EncodeElementAt, JsonSize, ItemsSize;
    var items := literal.items;
    ElementsPointwise(strkeys, items, depth);
    forall i | 0 <= i < |items|
      ensures CanBeSpelled(strkeys, EncodeElementAt(strkeys, items[i], depth).value)
    {
      ItemFits(items, i);
      ElementCanBeSpelled(strkeys, items[i], depth);
    }
  }

  lemma {:induction false} MapCanBeSpelled(strkeys: set<string>, literal: Spec, depth: nat)
    requires EncodeMapAt(strkeys, literal, depth).Ok?
    ensures CanBeSpelled(strkeys, EncodeMapAt(strkeys, literal, depth).value)
    decreases SpecSize(literal), 2
  {
    hide EncodePairs, EncodeElementAt, JsonSize, ItemsSize;
    var items := literal.items;
    PairsPointwise(strkeys, items, depth);
    forall i | 0 <= i < |items|
      ensures CanBeSpelled(strkeys, EncodeElementAt(strkeys, items[i].items[0], depth).value)
      ensures CanBeSpelled(strkeys, EncodeElementAt(strkeys, items[i].items[1], depth).value)
    {
      assert PairEncodes(strkeys, items[i], depth);
      ItemFits(items, i);
      PairSize(items[i]);
      ElementCanBeSpelled(strkeys, items[i].items[0], depth);
      ElementCanBeSpelled(strkeys, items[i].items[1], depth);
    }
  }

  lemma {:induction false} ElementCanBeSpelled(strkeys: set<string>, item: Json, depth: nat)
    requires EncodeElementAt(strkeys, item, depth).Ok?
    ensures CanBeSpelled(strkeys, EncodeElementAt(strkeys, item, depth).value)
    decreases JsonSize(item), 0
  {
    hide Encode, EncodeVecAt, CanBeSpelled, IsIntegerLiteral;
    match item
    case JString(spec) =>
      EncodedCanBeSpelled(strkeys, spec);
    case JArray(raw, items) =>
      VecCanBeSpelled(strkeys, Array("", raw, items, ""), depth + 1);
    case JLiteral(text) =>
      EncodedCanBeSpelled(strkeys, Plain(text));
    case JObject(_) =>
  }

  /** The values that arguments can stand for are exactly these. */
  lemma ArgumentsStandForExactly(strkeys: set<string>, v: ScVal)
    requires BareKeys(strkeys)
    ensures (exists spec :: Encode(strkeys, spec) == Ok(v)) <==> CanBeSpelled(strkeys, v)
  {
    hide Encode, CanBeSpelled, BareKeys, Spelling;
    if CanBeSpelled(strkeys, v) {
      SpellingsReadBack(strkeys, v);
    }
    forall spec | Encode(strkeys, spec) == Ok(v)
      ensures CanBeSpelled(strkeys, v)
    {
      EncodedCanBeSpelled(strkeys, spec);
    }
  }

  // ---- arguments without a type ------------------------------------------------------------------------

  predicate Reserved(s: string) {
    ToLower(s) in ["true", "false", "void", "null"]
  }

  /** Inference asks, in this order: is the text a reserved word, an address, an integer, a symbol. */
  predicate ReadsBare(strkeys: set<string>, v: ScVal) {
    match v
    case Void => true
    case Bool(_) => true
    case Address(s) => s in strkeys && !Reserved(s)
    case I128(_, _) => ScalarText(v) !in strkeys
    case Sym(s) => s != "" && LegalSymbol(s) && !Reserved(s) && s !in strkeys && !IsIntegerLiteral(s)
    case Str(s) =>
      && (s == "" || !LegalSymbol(s)) && !Reserved(s) && s !in strkeys && !IsIntegerLiteral(s) && !Quoted(s)
    case _ => false
  }

  /** The bare text of a value is inferred to be that value exactly when no earlier rule takes it. */
  lemma InferenceReadsBack(strkeys: set<string>, v: ScVal)
    requires BareKeys(strkeys) && TypeName(v) != ""
    ensures Infer(strkeys, ScalarText(v)) == Ok(v) <==> ReadsBare(strkeys, v)
  {
    hide Infer, EncodeBool, EncodeInteger, EncodeAddress, EncodeSymbol, FormatInt, HexEncode, Words.FromWords;
    hide IsIntegerLiteral, LegalSymbol, Quoted, Unquote, BareKeys, Reserved;
    var s := ScalarText(v);
    WhatIsInferred(strkeys, s);
    EncodersHaveArms(strkeys, s);
    match v
    case Void =>
      InferredWords(strkeys);
    case Bool(_) =>
      InferredWords(strkeys);
    case I128(_, _) =>
      NumbersLookLikeIntegers(ToBigInt(v).value);
      IntegerValueRoundTrip(v);
    case Address(_) =>
      AddressReadsBack(strkeys, s);
    case Sym(_) =>
      SymbolReadsBack(s);
    case Str(_) =>
      StringReadsBack(s);
    case _ =>
  }

  /** Which rule a text falls under, and what kind of value comes of it. */
  lemma WhatIsInferred(strkeys: set<string>, s: string)
    ensures Reserved(s) && Infer(strkeys, s).Ok? ==> Infer(strkeys, s).value.Bool? || Infer(strkeys, s).value.Void?
    ensures !Reserved(s) ==>
              Infer(strkeys, s) ==
              if s in strkeys then EncodeAddress(strkeys, s)
              else if IsIntegerLiteral(s) then EncodeInteger(TI128, s)
              else if s != "" && LegalSymbol(s) then EncodeSymbol(s)
              else Ok(Str(Unquote(s)))
  {
    hide EncodeInteger, EncodeBool, EncodeSymbol, EncodeAddress, ToLower, IsIntegerLiteral, IsSymbolLiteral, Unquote;
    hide LegalSymbol;
    SymbolForms(s);
    BooleanArm(s);
  }

  lemma BooleanArm(s: string)
    ensures EncodeBool(s).Ok? ==> EncodeBool(s).value.Bool?
  {
    hide TrimSpace;
  }

  lemma EncodersHaveArms(strkeys: set<string>, s: string)
    ensures EncodeAddress(strkeys, s).Ok? ==> EncodeAddress(strkeys, s).value.Address?
    ensures EncodeInteger(TI128, s).Ok? ==> EncodeInteger(TI128, s).value.I128?
    ensures EncodeSymbol(s).Ok? ==> EncodeSymbol(s).value.Sym?
  {
    hide EncodeInteger, EncodeSymbol, EncodeAddress;
    ScalarForms(strkeys, s);
    EncodedIntegersHaveTheirType(TI128, s);
  }

  lemma InferredWords(strkeys: set<string>)
    ensures Infer(strkeys, "null") == Ok(Void)
    ensures Infer(strkeys, "true") == Ok(Bool(true)) && Infer(strkeys, "false") == Ok(Bool(false))
  {
    hide EncodeBool, ToLower;
    PlainWords();
  }

  /** A bare JSON element of a collection, a number or word, is a truth value, void or an integer, never a string or a
      symbol; and an object is nothing at all. */
  lemma BareElementsAreNoText(strkeys: set<string>, text: string, depth: nat)
    requires text !in strkeys && EncodeElementAt(strkeys, JLiteral(text), depth).Ok?
    ensures var v := EncodeElementAt(strkeys, JLiteral(text), depth).value;
            && Infer(strkeys, text) == Ok(v)
            && (v.Bool? || v.Void? || v.I128?)
    ensures EncodeElementAt(strkeys, JObject(text), depth).Err?
  {
    hide Infer, IsIntegerLiteral, EncodeInteger, EncodeAddress, EncodeSymbol, Reserved, EncodeElementAt;
    BareElements(strkeys, text, depth);
    WhatIsInferred(strkeys, text);
    EncodersHaveArms(strkeys, text);
    BareWords(text);
  }

  lemma BareElements(strkeys: set<string>, text: string, depth: nat)
    ensures EncodeElementAt(strkeys, JObject(text), depth).Err?
    ensures EncodeElementAt(strkeys, JLiteral(text), depth) ==
            if text in ["true", "false", "null"] || IsIntegerLiteral(text) then Infer(strkeys, text)
            else Err(NotAnElement)
  {
    hide Infer, IsIntegerLiteral, SplitSpec, SpecSize;
    BareWords(text);
  }

  /** Words and integers name no type, and the words are reserved. */
  lemma BareWords(text: string)
    ensures text in ["true", "false", "null"] || IsIntegerLiteral(text) ==> SplitSpec(Plain(text)).None?
    ensures text in ["true", "false", "null"] ==> Reserved(text)
  {
    hide IndexFrom, ToLower, IsIntegerLiteral, IsTypeName;
    if text in ["true", "false", "null"] {
      PlainWords();
      assert ':' !in text;
    } else if IsIntegerLiteral(text) {
      IntegersHaveNoColon(text);
    }
  }

  lemma IntegersHaveNoColon(text: string)
    requires IsIntegerLiteral(text)
    ensures ':' !in text
  {
    var body := TrimPrefix(TrimPrefix(text, "-"), "+");
    var k := |text| - |body|;
    assert text[k..] == body;
    assert forall i | k <= i < |text| :: text[i] == body[i - k];
    assert forall i | 0 <= i < k :: text[i] in "-+";
  }

  lemma SymbolForms(s: string)
    ensures IsSymbolLiteral(s) <==> s != "" && LegalSymbol(s)
  {
  }

  lemma PlainWords()
    ensures ToLower("null") == "null" && ToLower("true") == "true" && ToLower("false") == "false"
    ensures EncodeBool("true") == Ok(Bool(true)) && EncodeBool("false") == Ok(Bool(false))
  {
    PlainBooleans();
    assert ToLower("true") == ['t', 'r', 'u', 'e'] && ToLower("null") == ['n', 'u', 'l', 'l'];
    assert ToLower("false") == ['f', 'a', 'l', 's', 'e'];
  }

  lemma NumbersLookLikeIntegers(n: int)
    ensures IsIntegerLiteral(FormatInt(n)) && !Reserved(FormatInt(n))
  {
    hide Format;
    var digits, s := Format(if n < 0 then -n else n), FormatInt(n);
    assert n < 0 ==> s == "-" + digits && s[1..] == digits;
    assert IsDigit(digits[0]) && digits[0] != '+' && digits[0] != '-';
    assert ToLower(s)[0] == s[0];
    assert s[0] == '-' || IsDigit(s[0]);
  }
}
