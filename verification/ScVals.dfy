/** Soroban values, and the integer encoders and readers of internal/scval. */
module ScVals {
  import opened Wrappers
  import opened Decimal
  import opened Hex
  import opened Words

  /** xdr.ScVal with every arm present: a value that came off the wire or out of an encoder. */
  datatype ScVal =
    | Void
    | Bool(b: bool)
    | U32(u32: uint32)
    | I32(i32: int32)
    | U64(u64: uint64)
    | I64(i64: int64)
    | Timepoint(timepoint: uint64)
    | Duration(duration: uint64)
    | U128(hi: uint64, lo: uint64)
    | I128(signedHi: int64, lo: uint64)
    | U256(hiHi: uint64, hiLo: uint64, loHi: uint64, loLo: uint64)
    | I256(signedHiHi: int64, hiLo: uint64, loHi: uint64, loLo: uint64)
    | Bytes(bytes: seq<uint8>)
    | Str(str: string)
    | Sym(sym: string)
    | Address(address: string)
    | Vec(items: seq<ScVal>)
    | Map(entries: seq<MapEntry>)
    | ContractError(errorType: string)
    | LedgerKeyContractInstance
    | LedgerKeyNonce(nonce: int64)
    | Other(tag: string)

  datatype MapEntry = MapEntry(key: ScVal, val: ScVal)

  datatype EncodeError =
    | BadInteger(cause: ParseError)
    | OutOfRange
    | NotABool
    | NotAnUnsignedCount
    | BadSymbol
    | BadHex
    | BadAddress
    | NotAnArray
    | InvalidJson
    | TooDeep
    | NotAPair
    | NotAnElement
    | ObjectNotSupported

  // ---- the integer types ------------------------------------------------------

  datatype IntType = TU32 | TI32 | TU64 | TI64 | TU128 | TI128 | TU256 | TI256 {
    predicate Signed() {
      TI32? || TI64? || TI128? || TI256?
    }

    /** 2 to the power of the width. */
    function Span(): (m: int)
      ensures m > 0 && m % 2 == 0
    {
      match this
      case TU32 => TWO32
      case TI32 => TWO32
      case TU64 => TWO64
      case TI64 => TWO64
      case TU128 => Modulus(2)
      case TI128 => Modulus(2)
      case TU256 => Modulus(4)
      case TI256 => Modulus(4)
    }

    /** checkRange accepts n. */
    predicate Holds(n: int) {
      var lo := if Signed() then -(Span() / 2) else 0;
      var hi := (if Signed() then Span() / 2 else Span()) - 1;
      lo <= n <= hi
    }
  }

  /** The bit pattern of a word read as a signed integer, and back. */
  function AsInt64(w: uint64): int64 {
    if w >= TWO63 then w - TWO64 else w
  }

  function AsUint64(i: int64): uint64 {
    if i < 0 then i + TWO64 else i
  }

  lemma WideRanges(t: IntType, n: int)
    requires t.Holds(n)
    ensures t.TU128? || t.TI128? ==> FitsWords(n, 2, t.Signed())
    ensures t.TU256? || t.TI256? ==> FitsWords(n, 4, t.Signed())
  {
    assert 2 * Half(2) == Modulus(2) && 2 * Half(4) == Modulus(4);
  }

  /** The value half of the eight integer encoders, once the number is known to fit. */
  function MakeInteger(t: IntType, n: int): ScVal
    requires t.Holds(n)
  {
    WideRanges(t, n);
    match t
    case TU32 => U32(n)
    case TI32 => I32(n)
    case TU64 => U64(n)
    case TI64 => I64(n)
    case TU128 => var w := ToWords(n, 2); U128(w[0], w[1])
    case TI128 => var w := ToWords(n, 2); I128(AsInt64(w[0]), w[1])
    case TU256 => var w := ToWords(n, 4); U256(w[0], w[1], w[2], w[3])
    case TI256 => var w := ToWords(n, 4); I256(AsInt64(w[0]), w[1], w[2], w[3])
  }

  /** encodeU32 ... encodeI256: parse, check the range, split into words. */
  function EncodeInteger(t: IntType, literal: string): Result<ScVal, EncodeError> {
    match ParseInteger(literal)
    case Err(e) => Err(BadInteger(e))
    case Ok(n) => if t.Holds(n) then Ok(MakeInteger(t, n)) else Err(OutOfRange)
  }

  function IntTypeOf(v: ScVal): Option<IntType> {
    match v
    case U32(_) => Some(TU32)
    case I32(_) => Some(TI32)
    case U64(_) => Some(TU64)
    case I64(_) => Some(TI64)
    case U128(_, _) => Some(TU128)
    case I128(_, _) => Some(TI128)
    case U256(_, _, _, _) => Some(TU256)
    case I256(_, _, _, _) => Some(TI256)
    case _ => None
  }

  /** ToBigInt: the number in any integer-like value, including timepoints and durations. */
  function ToBigInt(v: ScVal): Option<int> {
    match v
    case U32(n) => Some(n)
    case I32(n) => Some(n)
    case U64(n) => Some(n)
    case I64(n) => Some(n)
    case Timepoint(n) => Some(n)
    case Duration(n) => Some(n)
    case U128(hi, lo) => Some(FromWords([hi, lo], false))
    case I128(hi, lo) => Some(FromWords([AsUint64(hi), lo], true))
    case U256(a, b, c, d) => Some(FromWords([a, b, c, d], false))
    case I256(a, b, c, d) => Some(FromWords([AsUint64(a), b, c, d], true))
    case _ => None
  }

  // ---- the encoders and the reader are inverse ---------------------------------

  lemma TwoWords(ws: seq<uint64>)
    requires |ws| == 2
    ensures ws == [ws[0], ws[1]]
  {
  }

  lemma FourWords(ws: seq<uint64>)
    requires |ws| == 4
    ensures ws == [ws[0], ws[1], ws[2], ws[3]]
  {
  }

  lemma MadeIntegersReadBack(t: IntType, n: int)
    requires t.Holds(n)
    ensures IntTypeOf(MakeInteger(t, n)) == Some(t) && ToBigInt(MakeInteger(t, n)) == Some(n)
  {
    WideRanges(t, n);
    if t.TU128? || t.TI128? {
      FromToWords(n, 2, t.Signed());
      TwoWords(ToWords(n, 2));
    } else if t.TU256? || t.TI256? {
      FromToWords(n, 4, t.Signed());
      FourWords(ToWords(n, 4));
    }
  }

  lemma ReadIntegersAreMade(v: ScVal, t: IntType)
    requires IntTypeOf(v) == Some(t)
    ensures t.Holds(ToBigInt(v).value) && MakeInteger(t, ToBigInt(v).value) == v
  {
    if t.TU128? || t.TI128? {
      ReadTwoWords(v, t);
    } else if t.TU256? || t.TI256? {
      ReadFourWords(v, t);
    }
  }

  lemma ReadTwoWords(v: ScVal, t: IntType)
    requires IntTypeOf(v) == Some(t) && (t.TU128? || t.TI128?)
    ensures t.Holds(ToBigInt(v).value) && MakeInteger(t, ToBigInt(v).value) == v
  {
    hide Digits, Number, FromWords, ToWords;
    assert 2 * Half(2) == Modulus(2);
    ToFromWords(if t.TU128? then [v.hi, v.lo] else [AsUint64(v.signedHi), v.lo], t.Signed());
  }

  lemma ReadFourWords(v: ScVal, t: IntType)
    requires IntTypeOf(v) == Some(t) && (t.TU256? || t.TI256?)
    ensures t.Holds(ToBigInt(v).value) && MakeInteger(t, ToBigInt(v).value) == v
  {
    hide Digits, Number, FromWords, ToWords;
    assert 2 * Half(4) == Modulus(4);
    ToFromWords([if t.TU256? then v.hiHi else AsUint64(v.signedHiHi), v.hiLo, v.loHi, v.loLo], t.Signed());
  }

  /** A literal is encoded exactly when it parses to a number the type holds, and the value encoded is
      then that number in that type. */
  lemma IntegerEncodingIsFaithful(t: IntType, literal: string, n: int)
    requires ParseInteger(literal) == Ok(n)
    ensures t.Holds(n) <==> EncodeInteger(t, literal).Ok?
    ensures t.Holds(n) ==>
              var v := EncodeInteger(t, literal).value;
              IntTypeOf(v) == Some(t) && ToBigInt(v) == Some(n)
    ensures !t.Holds(n) ==> EncodeInteger(t, literal) == Err(OutOfRange)
  {
    if t.Holds(n) {
      MadeIntegersReadBack(t, n);
    }
  }

  /** The canonical text of n encodes as t and reads back as n exactly when n is in range. */
  lemma IntegerRoundTrip(t: IntType, n: int)
    ensures t.Holds(n) <==> EncodeInteger(t, FormatInt(n)).Ok?
    ensures t.Holds(n) ==> ToBigInt(EncodeInteger(t, FormatInt(n)).value) == Some(n)
    ensures !t.Holds(n) ==> EncodeInteger(t, FormatInt(n)) == Err(OutOfRange)
  {
    ParseFormatInt(n);
    IntegerEncodingIsFaithful(t, FormatInt(n), n);
  }

  /** Conversely every integer value is what its own decimal text encodes to. */
  lemma IntegerValueRoundTrip(v: ScVal)
    requires IntTypeOf(v).Some?
    ensures EncodeInteger(IntTypeOf(v).value, FormatInt(ToBigInt(v).value)) == Ok(v)
  {
    ReadIntegersAreMade(v, IntTypeOf(v).value);
    ParseFormatInt(ToBigInt(v).value);
  }

  /** Ten to the seventy-seventh fits an unsigned 256-bit integer, and the next power of ten does not: the limit on
      decimal counts is lower than it need be. */
  lemma LargestPowerOfTen()
    ensures TU256.Holds(Pow10(77)) && !TU256.Holds(Pow10(78)) && MAX_DECIMALS == 76
  {
    hide Pow10;
    PowersOfTen();
    assert Modulus(4) == TWO64 * (TWO64 * (TWO64 * TWO64)) by {
      assert Modulus(4) == TWO64 * Modulus(3) && Modulus(3) == TWO64 * Modulus(2);
    }
  }

  lemma PowersOfTen()
    ensures Pow10(77) == 1_00000000_00000000_00000000_00000000_00000000_00000000_00000000_00000000_00000000_00000
    ensures Pow10(78) == 10 * Pow10(77)
  {
    assert Pow10(11) == 1_00000_000000;
    Pow10Add(11, 11);
    Pow10Add(22, 11);
    Pow10Add(33, 11);
    Pow10Add(44, 11);
    Pow10Add(55, 11);
    Pow10Add(66, 11);
  }
}
