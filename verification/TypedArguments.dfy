/** What typing an argument does to its meaning: annotating and then encoding is reading the argument by its declared
    type, position by position. */
module TypedArguments {
  import opened Wrappers
  import opened Text
  import opened Decimal
  import opened ScVals
  import opened Codec
  import opened Annotate

  // ---- reading by declared types ---------------------------------------------------------------

  /** A literal read as a scalar of an interface kind; other kinds have no literal form. */
  function ScalarOfKind(strkeys: set<string>, kind: string, text: string): Option<Result<ScVal, EncodeError>> {
    match kind
    case "bool" => Some(EncodeBool(text))
    case "void" => Some(Ok(Void))
    case "u32" => Some(EncodeInteger(TU32, text))
    case "i32" => Some(EncodeInteger(TI32, text))
    case "u64" => Some(EncodeInteger(TU64, text))
    case "i64" => Some(EncodeInteger(TI64, text))
    case "u128" => Some(EncodeInteger(TU128, text))
    case "i128" => Some(EncodeInteger(TI128, text))
    case "u256" => Some(EncodeInteger(TU256, text))
    case "i256" => Some(EncodeInteger(TI256, text))
    case "timepoint" => Some(EncodeScalar(strkeys, "timepoint", text))
    case "duration" => Some(EncodeScalar(strkeys, "duration", text))
    case "bytes" => Some(EncodeBytes(text))
    case "bytes_n" => Some(EncodeBytes(text))
    case "string" => Some(Ok(Str(Unquote(text))))
    case "symbol" => Some(EncodeSymbol(text))
    case "address" => Some(EncodeAddress(strkeys, text))
    case _ => None
  }

  /** The value that a literal spells at a declared type: its own type wins, then the declared one decides, down to
      the elements; what neither types is inferred. */
  function Meant(strkeys: set<string>, t: AbiType, literal: Spec): Result<ScVal, EncodeError>
    decreases t, 2, 0
  {
    if HasType(literal) then Encode(strkeys, literal)
    else if t.kind == "option" && t.inner.Some? then Meant(strkeys, t.inner.value, literal)
    else if t.kind == "vec" && OpensArray(literal) then
      if literal.Plain? then Err(InvalidJson)
      else
        var values :- MeantItems(strkeys, t, literal.items);
        Ok(Vec(values))
    else if t.kind == "map" && OpensArray(literal) then
      if literal.Plain? then Err(InvalidJson)
      else
        var entries :- MeantEntries(strkeys, t, literal.items);
        Ok(Map(entries))
    else if ScalarOfKind(strkeys, t.kind, TextOf(literal)).Some? then
      ScalarOfKind(strkeys, t.kind, TextOf(literal)).value
    else Encode(strkeys, literal)
  }

  function MeantItems(strkeys: set<string>, t: AbiType, items: seq<Json>): Result<seq<ScVal>, EncodeError>
    decreases t, 1, |items|
  {
    if items == [] then Ok([])
    else
      var first :- MeantItem(strkeys, t.element, items[0]);
      var rest :- MeantItems(strkeys, t, items[1..]);
      Ok([first] + rest)
  }

  function MeantEntries(strkeys: set<string>, t: AbiType, items: seq<Json>): Result<seq<MapEntry>, EncodeError>
    decreases t, 1, |items|
  {
    if items == [] then Ok([])
    else if !items[0].JArray? || |items[0].items| != 2 then Err(NotAPair)
    else
      var key :- MeantItem(strkeys, t.key, items[0].items[0]);
      var val :- MeantItem(strkeys, t.value, items[0].items[1]);
      var rest :- MeantEntries(strkeys, t, items[1..]);
      Ok([MapEntry(key, val)] + rest)
  }

  /** An array that no type reads is a vec. */
  function MeantItem(strkeys: set<string>, t: Option<AbiType>, item: Json): Result<ScVal, EncodeError>
    decreases t, 0, 0
  {
    var literal := ElementLiteral(item);
    if StartsWithBracket(literal) && (t.None? || HasNoLiteralForm(t.value)) then EncodeVecAt(strkeys, literal, 1)
    else if t.None? then Encode(strkeys, literal)
    else Meant(strkeys, t.value, literal)
  }

  // ---- annotate, then encode ----------------------------------------------------------------------

  /** What annotation makes of a literal encodes to the value that the literal spells at its declared type, or fails
      to for the same reason. */
  lemma {:induction false} AnnotationKeepsTheMeaning(strkeys: set<string>, t: AbiType, literal: Spec)
    requires AnnotateSpec(t, literal).Ok?
    ensures Encode(strkeys, AnnotateSpec(t, literal).value) == Meant(strkeys, t, literal)
    decreases t, 2, 0
  {
    hide Encode, HasType, OpensArray, NamesNothing, ScalarOfKind, PrefixFor, WithPrefix, MeantItems, MeantEntries;
    hide Marshal, MarshalPairs, AnnotateElements, AnnotatePairs, UnmarshalRows;
    if !HasType(literal) {
      NothingIsTyped(literal);
      if t.kind == "option" {
        NoScalar(strkeys, t.kind, TextOf(literal));
        if t.inner.Some? {
          AnnotationKeepsTheMeaning(strkeys, t.inner.value, literal);
        }
      } else if t.kind == "vec" {
        NoScalar(strkeys, t.kind, TextOf(literal));
        if OpensArray(literal) {
          VecKeepsTheMeaning(strkeys, t, literal);
        }
      } else if t.kind == "map" {
        NoScalar(strkeys, t.kind, TextOf(literal));
        if OpensArray(literal) {
          MapKeepsTheMeaning(strkeys, t, literal);
        }
      } else {
        ScalarKeepsTheMeaning(strkeys, t.kind, literal);
      }
    }
  }

  lemma NoScalar(strkeys: set<string>, kind: string, text: string)
    requires kind in ["option", "vec", "map"]
    ensures ScalarOfKind(strkeys, kind, text).None?
  {
  }

  lemma ScalarKeepsTheMeaning(strkeys: set<string>, kind: string, literal: Spec)
    ensures PrefixFor(kind).Some? <==> ScalarOfKind(strkeys, kind, TextOf(literal)).Some?
    ensures PrefixFor(kind).Some? ==>
              Encode(strkeys, WithPrefix(PrefixFor(kind).value, literal)) ==
              ScalarOfKind(strkeys, kind, TextOf(literal)).value
  {
    hide Encode, WithPrefix, EncodeInteger, EncodeBool, EncodeSymbol, EncodeBytes, EncodeAddress, ParseUint64;
    hide TrimSpace, Unquote;
    if PrefixFor(kind).Some? {
      PrefixedTextEncodes(strkeys, PrefixFor(kind).value, literal);
    }
  }

  /** A printed list is encoded element by element, from the top. */
  lemma ListEncodes(strkeys: set<string>, literal: Spec)
    requires literal.Array? && literal.pre == ""
    ensures EncodeVecAt(strkeys, literal, 1) ==
            if EncodeElements(strkeys, literal.items, 1).Err? then Err(EncodeElements(strkeys, literal.items, 1).error)
            else Ok(Vec(EncodeElements(strkeys, literal.items, 1).value))
    ensures EncodeMapAt(strkeys, literal, 1) ==
            if EncodePairs(strkeys, literal.items, 1).Err? then Err(EncodePairs(strkeys, literal.items, 1).error)
            else Ok(Map(EncodePairs(strkeys, literal.items, 1).value))
  {
    hide EncodeElements, EncodePairs;
  }

  lemma {:induction false} VecKeepsTheMeaning(strkeys: set<string>, t: AbiType, literal: Spec)
    requires t.kind == "vec" && !HasType(literal) && OpensArray(literal) && AnnotateSpec(t, literal).Ok?
    ensures Encode(strkeys, AnnotateSpec(t, literal).value) == Meant(strkeys, t, literal)
    decreases t, 1, |literal.items| + 1
  {
    hide Encode, HasType, OpensArray, WithPrefix, MeantItems, AnnotateElements, QuoteAll, EncodeElements, EncodeVecAt;
    var specs := AnnotateElements(t, literal.items).value;
    VecTextEncodes(strkeys, Marshal(specs));
    ListEncodes(strkeys, Marshal(specs));
    ItemsKeepTheMeaning(strkeys, t, literal.items);
  }

  lemma {:induction false} MapKeepsTheMeaning(strkeys: set<string>, t: AbiType, literal: Spec)
    requires t.kind == "map" && !HasType(literal) && OpensArray(literal) && AnnotateSpec(t, literal).Ok?
    ensures Encode(strkeys, AnnotateSpec(t, literal).value) == Meant(strkeys, t, literal)
    decreases t, 1, |literal.items| + 1
  {
    hide Encode, HasType, OpensArray, WithPrefix, MeantEntries, AnnotatePairs, QuotePairs, QuoteAll, EncodePairs;
    hide EncodeMapAt;
    var pairs := AnnotatePairs(t, literal.items).value;
    VecTextEncodes(strkeys, MarshalPairs(pairs));
    ListEncodes(strkeys, MarshalPairs(pairs));
    EntriesKeepTheMeaning(strkeys, t, literal.items);
  }

  lemma {:induction false} ItemsKeepTheMeaning(strkeys: set<string>, t: AbiType, items: seq<Json>)
    requires AnnotateElements(t, items).Ok?
    ensures EncodeElements(strkeys, Marshal(AnnotateElements(t, items).value).items, 1) == MeantItems(strkeys, t, items)
    decreases t, 1, |items|
  {
    hide Encode, QuoteAll, AnnotateElement, MeantItem;
    if items != [] {
      var specs := AnnotateElements(t, items).value;
      ItemKeepsTheMeaning(strkeys, t.element, items[0]);
      ItemsKeepTheMeaning(strkeys, t, items[1..]);
      assert specs[1..] == AnnotateElements(t, items[1..]).value;
      assert Marshal(specs).items[1..] == Marshal(specs[1..]).items;
      assert EncodeElementAt(strkeys, Marshal(specs).items[0], 1) == Encode(strkeys, specs[0]);
    }
  }

  lemma {:induction false} EntriesKeepTheMeaning(strkeys: set<string>, t: AbiType, items: seq<Json>)
    requires AnnotatePairs(t, items).Ok?
    ensures EncodePairs(strkeys, MarshalPairs(AnnotatePairs(t, items).value).items, 1) ==
            MeantEntries(strkeys, t, items)
    decreases t, 1, |items|
  {
    hide Encode, QuotePairs, QuoteAll, AnnotateElement, MeantItem;
    if items != [] {
      var pairs := AnnotatePairs(t, items).value;
      ItemKeepsTheMeaning(strkeys, t.key, items[0].items[0]);
      ItemKeepsTheMeaning(strkeys, t.value, items[0].items[1]);
      EntriesKeepTheMeaning(strkeys, t, items[1..]);
      assert pairs[1..] == AnnotatePairs(t, items[1..]).value;
      assert MarshalPairs(pairs).items[1..] == MarshalPairs(pairs[1..]).items;
      var halves := MarshalPairs(pairs).items[0].items;
      assert EncodeElementAt(strkeys, halves[0], 1) == Encode(strkeys, pairs[0].0);
      assert EncodeElementAt(strkeys, halves[1], 1) == Encode(strkeys, pairs[0].1);
    }
  }

  lemma {:induction false} ItemKeepsTheMeaning(strkeys: set<string>, t: Option<AbiType>, item: Json)
    requires AnnotateElement(t, item).Ok?
    ensures Encode(strkeys, AnnotateElement(t, item).value) == MeantItem(strkeys, t, item)
    decreases t, 0, 0
  {
    hide Encode, EncodeVecAt, AnnotateSpec, Meant, HasNoLiteralForm, StartsWithBracket, WithPrefix;
    var literal := ElementLiteral(item);
    var s := if t.None? then literal else AnnotateSpec(t.value, literal).value;
    if t.Some? && StartsWithBracket(literal) && HasNoLiteralForm(t.value) {
      NoLiteralFormPassesThrough(t.value, literal);
    }
    if StartsWithBracket(s) {
      VecTextEncodes(strkeys, s);
      if t.Some? {
        BracketsArePassedThrough(t.value, literal);
      }
    } else if t.Some? {
      AnnotationKeepsTheMeaning(strkeys, t.value, literal);
    }
  }

  // ---- what that means for scalars ------------------------------------------------------------------

  /** The codec's name for a scalar interface kind. */
  predicate IsScalarKind(kind: string) {
    kind in {"bool", "void", "u32", "i32", "u64", "i64", "u128", "i128", "u256", "i256",
             "timepoint", "duration", "bytes", "bytes_n", "string", "symbol", "address"}
  }

  /** Typing a scalar puts its kind and a colon before the literal, and the codec splits off just that. */
  lemma TypingKeepsTheLiteral(t: AbiType, literal: Spec)
    requires !HasType(literal) && IsScalarKind(t.kind)
    ensures AnnotateSpec(t, literal).Ok?
    ensures var typed := AnnotateSpec(t, literal).value;
            var name := if t.kind == "bytes_n" then "bytes" else t.kind;
            && SplitSpec(typed) == Some((name, literal))
            && TextOf(typed) == name + ":" + TextOf(literal)
  {
    hide SplitSpec, HasType;
    var name := if t.kind == "bytes_n" then "bytes" else t.kind;
    ScalarPrefixesAreNames(name);
    PrefixSplitsOff(name, literal);
    assert literal.Array? ==>
        name + ":" + literal.pre + literal.raw + literal.post ==
        name + ":" + (literal.pre + literal.raw + literal.post);
  }

  /** An integer argument without a type of its own is encoded exactly when its text reads as a number in the range of
      its declared type, and is then that number in that type. */
  lemma IntegersKeepTheirNumber(strkeys: set<string>, t: AbiType, width: IntType, literal: Spec)
    requires !HasType(literal) && IntegerTypeNamed(t.kind) == Some(width)
    ensures AnnotateSpec(t, literal).Ok?
    ensures var number := ParseInteger(TextOf(literal));
            var encoded := Encode(strkeys, AnnotateSpec(t, literal).value);
            && (encoded.Ok? <==> number.Ok? && width.Holds(number.value))
            && (encoded.Ok? ==>
                  IntTypeOf(encoded.value) == Some(width) && ToBigInt(encoded.value) == Some(number.value))
  {
    hide Encode, EncodeInteger, ParseInteger, SplitSpec, HasType, AnnotateSpec, IntType.Holds;
    TypingKeepsTheLiteral(t, literal);
    AnnotationKeepsTheMeaning(strkeys, t, literal);
    IntegersAreMeant(strkeys, t, width, literal);
    if ParseInteger(TextOf(literal)).Ok? {
      IntegerEncodingIsFaithful(width, TextOf(literal), ParseInteger(TextOf(literal)).value);
    } else {
      NoNumberNoInteger(width, TextOf(literal));
    }
  }

  lemma NoNumberNoInteger(width: IntType, text: string)
    requires ParseInteger(text).Err?
    ensures EncodeInteger(width, text).Err?
  {
  }

  lemma IntegersAreMeant(strkeys: set<string>, t: AbiType, width: IntType, literal: Spec)
    requires !HasType(literal) && IntegerTypeNamed(t.kind) == Some(width)
    ensures IsScalarKind(t.kind) && Meant(strkeys, t, literal) == EncodeInteger(width, TextOf(literal))
  {
    hide EncodeInteger, HasType, OpensArray, ScalarOfKind, IntegerTypeNamed, IsScalarKind;
    IntegerKinds(strkeys, t.kind, width, TextOf(literal));
  }

  lemma IntegerKinds(strkeys: set<string>, kind: string, width: IntType, text: string)
    requires IntegerTypeNamed(kind) == Some(width)
    ensures IsScalarKind(kind) && kind !in ["option", "vec", "map"]
    ensures ScalarOfKind(strkeys, kind, text) == Some(EncodeInteger(width, text))
  {
    hide EncodeInteger;
  }

  // ---- the arguments of a call --------------------------------------------------------------------------

  datatype TypingError = Mistyped(cause: ArgumentError) | NotEncoded(index: nat, reason: EncodeError)

  /** typeArgs and EncodeAll: the arguments typed by the contract's interface where there is one, and encoded. */
  method EncodeArguments(strkeys: set<string>, inputs: Option<seq<Param>>, args: seq<Spec>)
      returns (r: Result<seq<ScVal>, TypingError>)
    ensures r.Ok? ==> |r.value| == |args|
    ensures r.Ok? && inputs.None? ==> forall i | 0 <= i < |args| :: Encode(strkeys, args[i]) == Ok(r.value[i])
    ensures r.Ok? && inputs.Some? ==>
              && |inputs.value| == |args|
              && forall i | 0 <= i < |args| :: Meant(strkeys, inputs.value[i].abiType, args[i]) == Ok(r.value[i])
    ensures r.Err? && r.error.NotEncoded? ==>
              && r.error.index < |args|
              && (inputs.None? ==> Encode(strkeys, args[r.error.index]) == Err(r.error.reason))
              && (inputs.Some? ==>
                    && |inputs.value| == |args|
                    && Meant(strkeys, inputs.value[r.error.index].abiType, args[r.error.index]) == Err(r.error.reason))
    ensures r == Err(Mistyped(WrongCount)) <==> inputs.Some? && |inputs.value| != |args|
    ensures r.Err? && r.error.Mistyped? && r.error.cause.BadArgument? ==>
              && inputs.Some? && |inputs.value| == |args| && r.error.cause.index < |args|
              && Refused(inputs.value[r.error.cause.index].abiType, args[r.error.cause.index])
  {
    hide *;
    var typed := args;
    if inputs.Some? {
      var annotated := AnnotateArguments(inputs.value, args);
      if annotated.Err? {
        if annotated.error.BadArgument? {
          FailsExactly(inputs.value[annotated.error.index].abiType, args[annotated.error.index]);
        }
        return Err(Mistyped(annotated.error));
      }
      typed := annotated.value;
      forall i | 0 <= i < |args|
        ensures Encode(strkeys, typed[i]) == Meant(strkeys, inputs.value[i].abiType, args[i])
      {
        AnnotationKeepsTheMeaning(strkeys, inputs.value[i].abiType, args[i]);
      }
    }
    var encoded := EncodeAll(strkeys, typed);
    if encoded.Err? {
      return Err(NotEncoded(encoded.error.0, encoded.error.1));
    }
    return Ok(encoded.value);
  }
}
