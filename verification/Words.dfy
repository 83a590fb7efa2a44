/** Two's complement: twosComplementWords (internal/scval/encode.go) and wordsToBigInt (internal/scval/decode.go). */
module Words {
  const TWO32: int := 0x1_0000_0000
  const TWO64: int := 0x1_0000_0000_0000_0000
  const TWO63: int := 0x8000_0000_0000_0000

  type uint64 = n: int | 0 <= n < TWO64
  type int64 = n: int | -TWO63 <= n < TWO63
  type uint32 = n: int | 0 <= n < TWO32
  type int32 = n: int | -0x8000_0000 <= n < 0x8000_0000

  /** 2 to the power of 64 * count. */
  function Modulus(count: nat): (m: int)
    ensures m >= 1 && (count > 0 ==> m % 2 == 0)
  {
    if count == 0 then 1 else TWO64 * Modulus(count - 1)
  }

  /** The largest magnitude a signed number of count words reaches, plus one: 2 to the power of 64 * count - 1. */
  function Half(count: nat): (h: int)
    requires count > 0
    ensures 2 * h == Modulus(count) && h == TWO63 * Modulus(count - 1)
  {
    TWO63 * Modulus(count - 1)
  }

  predicate FitsWords(n: int, count: nat, signed: bool)
    requires count > 0
  {
    if signed then -Half(count) <= n < Half(count) else 0 <= n < Modulus(count)
  }

  /** The words of v, most significant first, as repeated division leaves them. */
  function Digits(v: nat, count: nat): (ws: seq<uint64>)
    ensures |ws| == count
  {
    if count == 0 then [] else Digits(v / TWO64, count - 1) + [v % TWO64]
  }

  /** The number that big-endian words spell: the meaning of a word list. */
  function Number(ws: seq<uint64>): (n: nat)
  {
    if ws == [] then 0 else Number(ws[..|ws| - 1]) * TWO64 + ws[|ws| - 1]
  }

  lemma {:induction false} NumberBound(ws: seq<uint64>)
    ensures Number(ws) < Modulus(|ws|)
  {
    if ws != [] {
      NumberBound(ws[..|ws| - 1]);
    }
  }

  lemma {:induction false} NumberOfDigits(v: nat, count: nat)
    requires v < Modulus(count)
    ensures Number(Digits(v, count)) == v
  {
    if count > 0 {
      DivideBelow(v, Modulus(count - 1));
      NumberOfDigits(v / TWO64, count - 1);
      assert Digits(v, count)[..count - 1] == Digits(v / TWO64, count - 1);
    }
  }

  lemma DivideBelow(v: nat, m: int)
    requires v < TWO64 * m
    ensures v / TWO64 < m
  {
  }

  lemma {:induction false} DigitsOfNumber(ws: seq<uint64>)
    ensures Digits(Number(ws), |ws|) == ws
  {
    if ws != [] {
      var init, last := ws[..|ws| - 1], ws[|ws| - 1];
      DigitsOfNumber(init);
      assert Number(ws) / TWO64 == Number(init) && Number(ws) % TWO64 == last;
      assert ws == init + [last];
    }
  }

  /** The top word of a list carries the sign bit exactly when the number is in the upper half. */
  lemma {:induction false} SignBit(ws: seq<uint64>)
    requires ws != []
    ensures ws[0] >= TWO63 <==> Number(ws) >= Half(|ws|)
  {
    if |ws| == 1 {
      assert Number(ws) == Number([]) * TWO64 + ws[0];
    } else {
      var init := ws[..|ws| - 1];
      SignBit(init);
      var h := Half(|init|);
      assert Half(|ws|) == h * TWO64;
      assert Number(init) >= h ==> Number(ws) >= h * TWO64;
      assert Number(init) <= h - 1 ==> Number(ws) < h * TWO64;
    }
  }

  // ---- the two conversions --------------------------------------------------

  /** n reduced to an unsigned number of count words: what adding the modulus to a negative n gives. */
  function Unsigned(n: int, count: nat): int {
    if n < 0 then n + Modulus(count) else n
  }

  function ToWords(n: int, count: nat): (ws: seq<uint64>)
    requires count > 0 && (FitsWords(n, count, true) || FitsWords(n, count, false))
    ensures |ws| == count
  {
    Digits(Unsigned(n, count), count)
  }

  function FromWords(ws: seq<uint64>, signed: bool): int {
    if signed && ws != [] && ws[0] >= TWO63 then Number(ws) - Modulus(|ws|) else Number(ws)
  }

  /** twosComplementWords: masking off and shifting out one word at a time, from the least significant. */
  method TwosComplementWords(n: int, count: nat) returns (words: array<uint64>)
    requires count > 0 && (FitsWords(n, count, true) || FitsWords(n, count, false))
    ensures fresh(words) && words[..] == ToWords(n, count)
  {
    hide Digits, Modulus;
    var v: nat := Unsigned(n, count);
    words := new uint64[count](_ => 0);
    var i := count;
    assert words[count..] == [];
    assert Digits(v, count) + [] == Digits(v, count);
    while i > 0
      invariant 0 <= i <= count
      invariant Digits(Unsigned(n, count), count) == Digits(v, i) + words[i..]
    {
      i := i - 1;
      ghost var was, done := v, words[i + 1..];
      words[i] := v % TWO64;
      v := v / TWO64;
      DigitsStep(was, i);
      assert words[i..] == [was % TWO64] + done;
      assert Digits(v, i) + [was % TWO64] + done == Digits(v, i) + ([was % TWO64] + done);
    }
    NoDigits(v);
    assert words[0..] == words[..] && [] + words[..] == words[..];
  }

  lemma DigitsStep(v: nat, count: nat)
    ensures Digits(v, count + 1) == Digits(v / TWO64, count) + [v % TWO64]
  {
  }

  lemma NoDigits(v: nat)
    ensures Digits(v, 0) == []
  {
  }

  /** wordsToBigInt: shifting left by 64 and or-ing in the next word, then undoing the sign bit. */
  method WordsToBigInt(words: seq<uint64>, signed: bool) returns (result: int)
    ensures result == FromWords(words, signed)
  {
    result := 0;
    for i := 0 to |words|
      invariant result == Number(words[..i])
    {
      assert words[..i + 1][..i] == words[..i];
      result := result * TWO64 + words[i];
    }
    assert words[..|words|] == words;
    if signed && |words| > 0 && words[0] >= TWO63 {
      result := result - Modulus(|words|);
    }
  }

  /** Every number that fits survives the trip through words... */
  lemma FromToWords(n: int, count: nat, signed: bool)
    requires count > 0 && FitsWords(n, count, signed)
    ensures FromWords(ToWords(n, count), signed) == n
  {
    NumberOfDigits(Unsigned(n, count), count);
    SignBit(ToWords(n, count));
  }

  /** ...every word list survives the trip through numbers, and spells a number that fits. */
  lemma ToFromWords(ws: seq<uint64>, signed: bool)
    requires ws != []
    ensures FitsWords(FromWords(ws, signed), |ws|, signed)
    ensures ToWords(FromWords(ws, signed), |ws|) == ws
  {
    NumberBound(ws);
    SignBit(ws);
    DigitsOfNumber(ws);
  }
}
