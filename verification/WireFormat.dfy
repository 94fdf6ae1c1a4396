/**
 Integer wire formats of binary payloads: two's complement, base 256, either byte order.
 Models what `struct.pack` and `struct.unpack` do for the format characters B b H h I i.
 */
module WireFormat {

  type Byte = b: int | 0 <= b < 256

  datatype Format = UInt8 | Int8 | UInt16 | Int16 | UInt32 | Int32 {

    /** `struct.calcsize` of the format character. */
    function Size(): (k: nat)
      ensures k in {1, 2, 4}
    {
      match this
      case UInt8 | Int8 => 1
      case UInt16 | Int16 => 2
      case UInt32 | Int32 => 4
    }

    /** Smallest code, as `encode` clamps it. */
    function Lo(): int {
      match this
      case UInt8 | UInt16 | UInt32 => 0
      case Int8 => -128
      case Int16 => -32768
      case Int32 => -2147483648
    }

    /** Largest code, as `encode` clamps it. */
    function Hi(): int {
      match this
      case UInt8 => 255
      case Int8 => 127
      case UInt16 => 65535
      case Int16 => 32767
      case UInt32 => 4294967295
      case Int32 => 2147483647
    }

    predicate Fits(code: int) {
      Lo() <= code <= Hi()
    }
  }

  function Pow256(k: nat): (p: nat)
    ensures p >= 1
  {
    if k == 0 then 1 else 256 * Pow256(k - 1)
  }

  /** The clamping bounds leave exactly one code per bit pattern. */
  lemma CodesFillTheWord(f: Format)
    ensures f.Lo() < 0 <==> f == Int8 || f == Int16 || f == Int32
    ensures f.Size() == 1 <==> f == UInt8 || f == Int8
    ensures f.Size() == 2 <==> f == UInt16 || f == Int16
    ensures f.Hi() - f.Lo() + 1 == Pow256(f.Size())
    ensures f.Lo() == 0 || (f.Lo() < 0 && f.Hi() == -f.Lo() - 1)
  {
    assert Pow256(1) == 256;
    assert Pow256(2) == 65536;
    assert Pow256(3) == 16777216;
    assert Pow256(4) == 4294967296;
  }

  // ---------------------------------------------------------------- one word

  /** Base-256 digits of `n`, least significant first or last. */
  function Digits(n: nat, k: nat, little: bool): (bs: seq<Byte>)
    ensures |bs| == k
  {
    if k == 0 then []
    else if little then [n % 256] + Digits(n / 256, k - 1, little)
    else Digits(n / 256, k - 1, little) + [n % 256]
  }

  function Value(bs: seq<Byte>, little: bool): (n: nat)
    ensures n < Pow256(|bs|)
  {
    if bs == [] then 0
    else if little then bs[0] + 256 * Value(bs[1..], little)
    else bs[|bs| - 1] + 256 * Value(bs[..|bs| - 1], little)
  }

  lemma LowDigit(low: Byte, rest: nat)
    ensures (low + 256 * rest) % 256 == low && (low + 256 * rest) / 256 == rest
  {
  }

  /** A word from its lowest digit and the others. */
  function Word(low: Byte, rest: seq<Byte>, little: bool): seq<Byte> {
    if little then [low] + rest else rest + [low]
  }

  lemma DigitsStep(n: nat, k: nat, little: bool)
    requires k > 0
    ensures Digits(n, k, little) == Word(n % 256, Digits(n / 256, k - 1, little), little)
  {
  }

  lemma ValueStep(low: Byte, rest: seq<Byte>, little: bool)
    ensures Value(Word(low, rest, little), little) == low + 256 * Value(rest, little)
  {
    var bs := Word(low, rest, little);
    assert if little then bs[0] == low && bs[1..] == rest else bs[|bs| - 1] == low && bs[..|bs| - 1] == rest;
  }

  lemma SplitNumber(n: nat, k: nat)
    requires k > 0 && n < Pow256(k)
    ensures n / 256 < Pow256(k - 1) && n == n % 256 + 256 * (n / 256)
  {
  }

  lemma {:induction false} ValueOfDigits(n: nat, k: nat, little: bool)
    requires n < Pow256(k)
    ensures Value(Digits(n, k, little), little) == n
  {
    if k == 0 {
    } else {
      SplitNumber(n, k);
      hide Value, Digits, Word, Pow256;
      ValueOfDigits(n / 256, k - 1, little);
      DigitsStep(n, k, little);
      ValueStep(n % 256, Digits(n / 256, k - 1, little), little);
    }
  }

  lemma SplitWord(bs: seq<Byte>, little: bool) returns (low: Byte, rest: seq<Byte>)
    requires bs != []
    ensures bs == Word(low, rest, little) && |rest| == |bs| - 1
  {
    low, rest := if little then bs[0] else bs[|bs| - 1], if little then bs[1..] else bs[..|bs| - 1];
  }

  lemma {:induction false} DigitsOfValue(bs: seq<Byte>, little: bool)
    ensures Digits(Value(bs, little), |bs|, little) == bs
    decreases |bs|
  {
    if bs == [] {
    } else {
      hide Value, Digits, Word;
      var low, rest := SplitWord(bs, little);
      DigitsOfValue(rest, little);
      ValueStep(low, rest, little);
      LowDigit(low, Value(rest, little));
      DigitsStep(Value(bs, little), |bs|, little);
    }
  }

  /** Negative codes are stored modulo the word size. */
  function ToWord(f: Format, code: int): (n: nat)
    requires f.Fits(code)
    ensures n < Pow256(f.Size())
  {
    CodesFillTheWord(f);
    if code < 0 then code + Pow256(f.Size()) else code
  }

  function FromWord(f: Format, n: nat): (code: int)
    requires n < Pow256(f.Size())
    ensures f.Fits(code)
    ensures code == n || code == n - Pow256(f.Size())
  {
    CodesFillTheWord(f);
    if n > f.Hi() then n - Pow256(f.Size()) else n
  }

  lemma WordOfCode(f: Format, code: int)
    requires f.Fits(code)
    ensures FromWord(f, ToWord(f, code)) == code
  {
    CodesFillTheWord(f);
    hide Pow256;
  }

  lemma CodeOfWord(f: Format, n: nat)
    requires n < Pow256(f.Size())
    ensures ToWord(f, FromWord(f, n)) == n
  {
    CodesFillTheWord(f);
    hide Pow256;
  }

  /** One packed element. */
  function Pack(f: Format, little: bool, code: int): (bs: seq<Byte>)
    requires f.Fits(code)
    ensures |bs| == f.Size()
  {
    Digits(ToWord(f, code), f.Size(), little)
  }

  function Unpack(f: Format, little: bool, bs: seq<Byte>): (code: int)
    requires |bs| == f.Size()
    ensures f.Fits(code)
  {
    FromWord(f, Value(bs, little))
  }

  lemma UnpackPack(f: Format, little: bool, code: int)
    requires f.Fits(code)
    ensures Unpack(f, little, Pack(f, little, code)) == code
  {
    hide Digits, Value, ToWord, FromWord, Pow256, Format.Lo, Format.Hi;
    WordOfCode(f, code);
    ValueOfDigits(ToWord(f, code), f.Size(), little);
  }

  lemma PackUnpack(f: Format, little: bool, bs: seq<Byte>)
    requires |bs| == f.Size()
    ensures Pack(f, little, Unpack(f, little, bs)) == bs
  {
    hide Digits, Value, ToWord, FromWord, Pow256, Format.Lo, Format.Hi;
    CodeOfWord(f, Value(bs, little));
    DigitsOfValue(bs, little);
  }

  // ---------------------------------------------------------------- whole payloads

  ghost predicate AllFit(f: Format, codes: seq<int>) {
    forall i :: 0 <= i < |codes| ==> f.Fits(codes[i])
  }

  function PackAll(f: Format, little: bool, codes: seq<int>): (bs: seq<Byte>)
    requires AllFit(f, codes)
    ensures |bs| == |codes| * f.Size()
  {
    if codes == [] then [] else Pack(f, little, codes[0]) + PackAll(f, little, codes[1..])
  }

  /** The whole words of a payload; `decode` drops a trailing partial word. */
  function UnpackAll(f: Format, little: bool, bs: seq<Byte>): (codes: seq<int>)
    ensures |codes| == |bs| / f.Size()
    ensures AllFit(f, codes)
  {
    var k := f.Size();
    if |bs| < k then [] else [Unpack(f, little, bs[..k])] + UnpackAll(f, little, bs[k..])
  }

  /** Which end of a word `little` means: the first byte is worth least, or most. */
  lemma WordMeaning(a: Byte, b: Byte, c: Byte, d: Byte)
    ensures Value([a], true) == a as int == Value([a], false)
    ensures Value([a, b], true) == a as int + 256 * b as int
    ensures Value([a, b], false) == 256 * a as int + b as int
    ensures Value([a, b, c, d], true) == a as int + 256 * b as int + 65536 * c as int + 16777216 * d as int
    ensures Value([a, b, c, d], false) == 16777216 * a as int + 65536 * b as int + 256 * c as int + d as int
  {
    hide *;
    LowByte(a);
    TwoBytes(a, b);
    FourBytes(a, b, c, d);
  }

  lemma LowByte(a: Byte)
    ensures Value([a], true) == a as int == Value([a], false)
  {
    assert [a][1..] == [] && [a][..0] == [];
  }

  lemma TwoBytes(a: Byte, b: Byte)
    ensures Value([a, b], true) == a as int + 256 * b as int
    ensures Value([a, b], false) == 256 * a as int + b as int
  {
    hide Value;
    ValueStep(a, [b], true);
    ValueStep(b, [a], false);
    LowByte(a);
    LowByte(b);
    assert [a] + [b] == [a, b];
  }

  lemma FourBytes(a: Byte, b: Byte, c: Byte, d: Byte)
    ensures Value([a, b, c, d], true) == a as int + 256 * b as int + 65536 * c as int + 16777216 * d as int
    ensures Value([a, b, c, d], false) == 16777216 * a as int + 65536 * b as int + 256 * c as int + d as int
  {
    hide Value;
    ValueStep(a, [b, c, d], true);
    ValueStep(b, [c, d], true);
    ValueStep(d, [a, b, c], false);
    ValueStep(c, [a, b], false);
    TwoBytes(c, d);
    TwoBytes(a, b);
    assert [a] + [b, c, d] == [a, b, c, d] && [b] + [c, d] == [b, c, d];
    assert [a, b, c] + [d] == [a, b, c, d] && [a, b] + [c] == [a, b, c];
  }

  /** The code of an element: its word's number, less the word size where the type is signed and that is too large. */
  lemma CodeMeaning(f: Format, little: bool, bs: seq<Byte>)
    requires |bs| == f.Size()
    ensures var code, n := Unpack(f, little, bs), Value(bs, little);
            match f
            case UInt8 | UInt16 | UInt32 => code == n
            case Int8 => code == if n < 128 then n else n - 256
            case Int16 => code == if n < 32768 then n else n - 65536
            case Int32 => code == if n < 2147483648 then n else n - 4294967296
  {
    CodesFillTheWord(f);
    hide Value;
  }

  lemma UnpackAllCons(f: Format, little: bool, word: seq<Byte>, rest: seq<Byte>)
    requires |word| == f.Size()
    ensures UnpackAll(f, little, word + rest) == [Unpack(f, little, word)] + UnpackAll(f, little, rest)
  {
    hide Unpack;
    var bs := word + rest;
    assert bs[..f.Size()] == word && bs[f.Size()..] == rest;
  }

  lemma PackAllCons(f: Format, little: bool, code: int, rest: seq<int>)
    requires f.Fits(code) && AllFit(f, rest)
    ensures AllFit(f, [code] + rest)
    ensures PackAll(f, little, [code] + rest) == Pack(f, little, code) + PackAll(f, little, rest)
  {
    hide Pack;
    assert ([code] + rest)[1..] == rest;
  }

  lemma {:induction false} UnpackAllPackAll(f: Format, little: bool, codes: seq<int>)
    requires AllFit(f, codes)
    ensures UnpackAll(f, little, PackAll(f, little, codes)) == codes
  {
    if codes == [] {
    } else {
      hide PackAll, UnpackAll, Pack, Unpack;
      assert codes == [codes[0]] + codes[1..];
      PackAllCons(f, little, codes[0], codes[1..]);
      UnpackAllCons(f, little, Pack(f, little, codes[0]), PackAll(f, little, codes[1..]));
      UnpackPack(f, little, codes[0]);
      UnpackAllPackAll(f, little, codes[1..]);
    }
  }

  /** Length of the part of a payload that holds whole words. */
  function WholeLength(f: Format, n: nat): (w: nat)
    ensures w <= n < w + f.Size()
  {
    if n < f.Size() then 0 else f.Size() + WholeLength(f, n - f.Size())
  }

  /** Payloads of whole words are kept to the last byte. */
  lemma {:induction false} WholeLengthAligned(f: Format, words: nat)
    ensures WholeLength(f, words * f.Size()) == words * f.Size()
  {
    if words == 0 {
    } else {
      var k := f.Size();
      assert words * k == (words - 1) * k + k;
      WholeLengthAligned(f, words - 1);
    }
  }

  /** After whole words, a word is read as it would be alone: every element of a payload comes from its own bytes. */
  lemma {:induction false} UnpackAllAt(f: Format, little: bool, before: seq<Byte>, word: seq<Byte>, after: seq<Byte>)
    requires WholeLength(f, |before|) == |before| && |word| == f.Size()
    ensures UnpackAll(f, little, before + word + after)
            == UnpackAll(f, little, before) + [Unpack(f, little, word)] + UnpackAll(f, little, after)
    decreases |before|
  {
    hide UnpackAll, Unpack, Format.Size;
    if |before| < f.Size() {
      assert before == [] && before + word + after == word + after;
      UnpackAllCons(f, little, word, after);
      NoWords(f, little);
    } else {
      var head, rest := before[..f.Size()], before[f.Size()..];
      assert before == head + rest;
      WholeLengthStep(f, |before|);
      UnpackAllAt(f, little, rest, word, after);
      UnpackAllShift(f, little, head, rest, word, after);
    }
  }

  lemma NoWords(f: Format, little: bool)
    ensures UnpackAll(f, little, []) == []
  {
  }

  lemma UnpackAllShift(f: Format, little: bool, head: seq<Byte>, rest: seq<Byte>, word: seq<Byte>, after: seq<Byte>)
    requires |head| == f.Size() == |word|
    requires UnpackAll(f, little, rest + word + after)
             == UnpackAll(f, little, rest) + [Unpack(f, little, word)] + UnpackAll(f, little, after)
    ensures UnpackAll(f, little, head + rest + word + after)
            == UnpackAll(f, little, head + rest) + [Unpack(f, little, word)] + UnpackAll(f, little, after)
  {
    hide *;
    assert head + rest + word + after == head + (rest + word + after);
    UnpackAllCons(f, little, head, rest);
    UnpackAllCons(f, little, head, rest + word + after);
    var h := [Unpack(f, little, head)];
    assert h + (UnpackAll(f, little, rest) + [Unpack(f, little, word)] + UnpackAll(f, little, after))
        == (h + UnpackAll(f, little, rest)) + [Unpack(f, little, word)] + UnpackAll(f, little, after);
  }

  /** Packing what was unpacked restores the payload up to its last whole word. */
  lemma {:induction false} PackAllUnpackAll(f: Format, little: bool, bs: seq<Byte>)
    ensures PackAll(f, little, UnpackAll(f, little, bs)) == bs[..WholeLength(f, |bs|)]
    decreases |bs|
  {
    hide Pack, Unpack;
    if |bs| < f.Size() {
    } else {
      PackAllUnpackAll(f, little, bs[f.Size()..]);
      RepackStep(f, little, bs[..f.Size()], bs[f.Size()..]);
      assert bs == bs[..f.Size()] + bs[f.Size()..];
    }
  }

  lemma RepackStep(f: Format, little: bool, head: seq<Byte>, rest: seq<Byte>)
    requires |head| == f.Size()
    requires PackAll(f, little, UnpackAll(f, little, rest)) == rest[..WholeLength(f, |rest|)]
    ensures PackAll(f, little, UnpackAll(f, little, head + rest)) == (head + rest)[..WholeLength(f, |head + rest|)]
  {
    hide *;
    PackUnpack(f, little, head);
    UnpackAllCons(f, little, head, rest);
    PackAllCons(f, little, Unpack(f, little, head), UnpackAll(f, little, rest));
    WholeLengthStep(f, |head + rest|);
    TakePast(head, rest, WholeLength(f, |rest|));
  }

  lemma WholeLengthStep(f: Format, n: nat)
    requires n >= f.Size()
    ensures WholeLength(f, n) == f.Size() + WholeLength(f, n - f.Size())
  {
  }

  lemma TakePast<T>(a: seq<T>, b: seq<T>, n: nat)
    requires n <= |b|
    ensures (a + b)[..|a| + n] == a + b[..n]
  {
  }
}
