/** Base58 as the repository writes and reads it (packages/auth/src/base58.ts). */
module Base58 {
  import opened Arithmetic
  import opened Results

  type Byte = b: int | 0 <= b < 256

  // ----- the alphabet -----

  const ALPHABET: string := "123456789" + "ABCDEFGH" + "JKLMN" + "PQRSTUVWXYZ" + "abcdefghijk" + "mnopqrstuvwxyz"

  function CharOf(value: nat): char
    requires value < 58
  {
    if value < 9 then '1' + value as char
    else if value < 17 then 'A' + (value - 9) as char
    else if value < 22 then 'J' + (value - 17) as char
    else if value < 33 then 'P' + (value - 22) as char
    else if value < 44 then 'a' + (value - 33) as char
    else 'm' + (value - 44) as char
  }

  lemma AlphabetSpelled()
    ensures |ALPHABET| == 58
    ensures forall v :: 0 <= v < 58 ==> ALPHABET[v] == CharOf(v)
  {
    var d, u1, u2, u3, l1, l2 := "123456789", "ABCDEFGH", "JKLMN", "PQRSTUVWXYZ", "abcdefghijk", "mnopqrstuvwxyz";
    assert forall v :: 0 <= v < 9 ==> d[v] == CharOf(v) by {
      assert d[0] == '1' && d[1] == '2' && d[2] == '3' && d[3] == '4' && d[4] == '5';
      assert d[5] == '6' && d[6] == '7' && d[7] == '8' && d[8] == '9';
    }
    assert forall v :: 0 <= v < 8 ==> u1[v] == CharOf(9 + v) by {
      assert u1[0] == 'A' && u1[1] == 'B' && u1[2] == 'C' && u1[3] == 'D';
      assert u1[4] == 'E' && u1[5] == 'F' && u1[6] == 'G' && u1[7] == 'H';
    }
    assert forall v :: 0 <= v < 5 ==> u2[v] == CharOf(17 + v) by {
      assert u2[0] == 'J' && u2[1] == 'K' && u2[2] == 'L' && u2[3] == 'M' && u2[4] == 'N';
    }
    assert forall v :: 0 <= v < 11 ==> u3[v] == CharOf(22 + v) by {
      assert u3[0] == 'P' && u3[1] == 'Q' && u3[2] == 'R' && u3[3] == 'S' && u3[4] == 'T' && u3[5] == 'U';
      assert u3[6] == 'V' && u3[7] == 'W' && u3[8] == 'X' && u3[9] == 'Y' && u3[10] == 'Z';
    }
    assert forall v :: 0 <= v < 11 ==> l1[v] == CharOf(33 + v) by {
      assert l1[0] == 'a' && l1[1] == 'b' && l1[2] == 'c' && l1[3] == 'd' && l1[4] == 'e' && l1[5] == 'f';
      assert l1[6] == 'g' && l1[7] == 'h' && l1[8] == 'i' && l1[9] == 'j' && l1[10] == 'k';
    }
    assert forall v :: 0 <= v < 14 ==> l2[v] == CharOf(44 + v) by {
      assert l2[0] == 'm' && l2[1] == 'n' && l2[2] == 'o' && l2[3] == 'p' && l2[4] == 'q' && l2[5] == 'r'
          && l2[6] == 's';
      assert l2[7] == 't' && l2[8] == 'u' && l2[9] == 'v' && l2[10] == 'w' && l2[11] == 'x' && l2[12] == 'y'
          && l2[13] == 'z';
    }
  }

  function Symbol(value: nat): (c: char)
    requires value < 58
    ensures c == CharOf(value)
  {
    AlphabetSpelled();
    ALPHABET[value]
  }

  lemma CharsAreDistinct()
    ensures forall v, w :: 0 <= v < 58 && 0 <= w < 58 && CharOf(v) == CharOf(w) ==> v == w
  {
  }

  /** The value of each character of the alphabet, and of nothing else. */
  function Values(): (values: map<char, nat>)
    ensures forall v :: 0 <= v < 58 ==> CharOf(v) in values && values[CharOf(v)] == v
    ensures forall c :: c in values ==> values[c] < 58 && CharOf(values[c]) == c
  {
    CharsAreDistinct();
    map v: nat | v < 58 :: CharOf(v) := v
  }

  /** Every digit and letter but those that look alike: nought, capital i, capital o and small l. */
  predicate Unmistakable(c: char) {
    ('0' <= c <= '9' || 'A' <= c <= 'Z' || 'a' <= c <= 'z') && c != '0' && c != 'I' && c != 'O' && c != 'l'
  }

  lemma CharsAreInOrder(v: nat, w: nat)
    requires v < w < 58
    ensures CharOf(v) < CharOf(w)
  {
  }

  lemma UnmistakableIsInTheAlphabet(c: char) returns (v: nat)
    requires Unmistakable(c)
    ensures v < 58 && CharOf(v) == c
  {
    var n := c as int;
    v := if n < 58 then n - 49 else if n < 73 then n - 65 + 9 else if n < 79 then n - 74 + 17
         else if n < 91 then n - 80 + 22 else if n < 108 then n - 97 + 33 else n - 109 + 44;
  }

  /** The alphabet is all of these, each once, in the order of their codes. */
  lemma AlphabetIsInOrder(c: char, v: nat, w: nat)
    requires v < w < 58
    ensures |ALPHABET| == 58 && ALPHABET[v] < ALPHABET[w]
    ensures c in Values() <==> Unmistakable(c)
    ensures c in Values() ==> Values()[c] < 58 && ALPHABET[Values()[c]] == c
  {
    AlphabetSpelled();
    CharsAreInOrder(v, w);
    if Unmistakable(c) {
      var place := UnmistakableIsInTheAlphabet(c);
    }
  }

  predicate IsBase58(text: string) {
    forall i :: 0 <= i < |text| ==> text[i] in Values()
  }

  // ----- numbers written in a base, most significant digit first -----

  predicate Digits(digits: seq<int>, radix: nat) {
    forall i :: 0 <= i < |digits| ==> 0 <= digits[i] < radix
  }

  function NumberOf(digits: seq<int>, radix: nat): int {
    if digits == [] then 0 else NumberOf(digits[..|digits| - 1], radix) * radix + digits[|digits| - 1]
  }

  function DigitsOf(number: nat, radix: nat): (digits: seq<int>)
    requires radix > 1
    ensures Digits(digits, radix)
  {
    if number == 0 then [] else
      assert number / radix < number by { QuotientIsSmaller(number, radix); }
      DigitsOf(number / radix, radix) + [number % radix]
  }

  lemma {:induction false} NumberIsNatural(digits: seq<int>, radix: nat)
    requires Digits(digits, radix)
    ensures NumberOf(digits, radix) >= 0
    ensures digits != [] && digits[0] != 0 ==> NumberOf(digits, radix) > 0
  {
    if digits != [] {
      NumberIsNatural(digits[..|digits| - 1], radix);
      assert NumberOf(digits[..|digits| - 1], radix) * radix >= 0;
      if |digits| > 1 && digits[0] != 0 {
        assert NumberOf(digits[..|digits| - 1], radix) * radix >= radix;
      }
    }
  }

  /** Writing a number down and reading it back gives the number. */
  lemma {:induction false} NumberOfDigitsOf(number: nat, radix: nat)
    requires radix > 1
    ensures NumberOf(DigitsOf(number, radix), radix) == number
  {
    if number > 0 {
      QuotientIsSmaller(number, radix);
      NumberOfDigitsOf(number / radix, radix);
      var digits := DigitsOf(number, radix);
      assert digits[..|digits| - 1] == DigitsOf(number / radix, radix);
      QuotientBounds(number, radix);
    }
  }

  /** And the other way, for digits that do not start with zero. */
  lemma {:induction false} DigitsOfNumberOf(digits: seq<int>, radix: nat)
    requires radix > 1 && Digits(digits, radix)
    requires digits == [] || digits[0] != 0
    ensures NumberOf(digits, radix) >= 0
    ensures DigitsOf(NumberOf(digits, radix), radix) == digits
  {
    NumberIsNatural(digits, radix);
    if digits != [] {
      var n := |digits| - 1;
      NumberIsNatural(digits[..n], radix);
      DigitsOfNumberOf(digits[..n], radix);
      QuotientIs(NumberOf(digits, radix), radix, NumberOf(digits[..n], radix));
      assert digits == digits[..n] + [digits[n]];
    }
  }

  function Zeros(n: nat): (zeros: seq<int>)
    ensures |zeros| == n && forall i :: 0 <= i < n ==> zeros[i] == 0
  {
    seq(n, i => 0)
  }

  lemma {:induction false} LeadingZerosWeighNothing(n: nat, digits: seq<int>, radix: nat)
    ensures NumberOf(Zeros(n) + digits, radix) == NumberOf(digits, radix)
    decreases n + |digits|
  {
    if digits != [] {
      var m := |digits| - 1;
      assert (Zeros(n) + digits)[..n + m] == Zeros(n) + digits[..m];
      LeadingZerosWeighNothing(n, digits[..m], radix);
    } else if n > 0 {
      assert (Zeros(n) + [])[..n - 1] == Zeros(n - 1) + [];
      LeadingZerosWeighNothing(n - 1, [], radix);
    }
  }

  /** How many zeros the digits start with. */
  function Leading(digits: seq<int>): (n: nat)
    ensures n <= |digits| && forall i :: 0 <= i < n ==> digits[i] == 0
    ensures n < |digits| ==> digits[n] != 0
  {
    if digits == [] || digits[0] != 0 then 0 else 1 + Leading(digits[1..])
  }

  lemma {:induction false} LeadingIs(digits: seq<int>, n: nat)
    requires n <= |digits| && forall i :: 0 <= i < n ==> digits[i] == 0
    requires n < |digits| ==> digits[n] != 0
    ensures Leading(digits) == n
  {
    if n > 0 {
      LeadingIs(digits[1..], n - 1);
    }
  }

  /**
   * Rewriting digits from one base to another: the number is carried across, and every leading zero is
   * written again, because the number cannot carry it.
   */
  function Rebase(digits: seq<int>, from: nat, to: nat): (result: seq<int>)
    requires from > 1 && to > 1 && Digits(digits, from)
    ensures Digits(result, to)
  {
    NumberIsNatural(digits, from);
    Zeros(Leading(digits)) + DigitsOf(NumberOf(digits, from), to)
  }

  lemma DigitsOfStartsNonZero(number: nat, radix: nat)
    requires radix > 1
    ensures DigitsOf(number, radix) != [] ==> DigitsOf(number, radix)[0] != 0
    decreases number
  {
    if number > 0 {
      QuotientIsSmaller(number, radix);
      DigitsOfStartsNonZero(number / radix, radix);
    }
  }

  /** Rebasing carries the number across, and as many leading zeros as there were. */
  lemma RebaseKeepsTheNumber(digits: seq<int>, from: nat, to: nat)
    requires from > 1 && to > 1 && Digits(digits, from)
    ensures NumberOf(Rebase(digits, from, to), to) == NumberOf(digits, from)
    ensures Leading(Rebase(digits, from, to)) == Leading(digits)
  {
    NumberIsNatural(digits, from);
    var number := NumberOf(digits, from);
    LeadingZerosWeighNothing(Leading(digits), DigitsOf(number, to), to);
    NumberOfDigitsOf(number, to);
    DigitsOfStartsNonZero(number, to);
    LeadingIs(Rebase(digits, from, to), Leading(digits));
  }

  function Power(radix: nat, n: nat): nat {
    if n == 0 then 1 else radix * Power(radix, n - 1)
  }

  /** The first digit weighs the most: the base as often as digits follow it. */
  lemma {:induction false} FirstDigitWeighsMost(first: int, rest: seq<int>, radix: nat)
    ensures NumberOf([first] + rest, radix) == first * Power(radix, |rest|) + NumberOf(rest, radix)
    decreases |rest|
  {
    if rest == [] {
      assert NumberOf([first][..0], radix) == 0 && [first] + rest == [first];
    } else {
      var n := |rest| - 1;
      assert ([first] + rest)[..n + 1] == [first] + rest[..n];
      FirstDigitWeighsMost(first, rest[..n], radix);
      var power := Power(radix, n);
      assert (first * power + NumberOf(rest[..n], radix)) * radix
          == first * (radix * power) + NumberOf(rest[..n], radix) * radix;
    }
  }

  /** Rebasing there and back is the identity, leading zeros included. */
  lemma RebaseRoundTrip(digits: seq<int>, from: nat, to: nat)
    requires from > 1 && to > 1 && Digits(digits, from)
    ensures Rebase(Rebase(digits, from, to), to, from) == digits
  {
    var zeros := Leading(digits);
    var rest := digits[zeros..];
    NumberIsNatural(digits, from);
    NumberIsNatural(rest, from);
    var number := NumberOf(digits, from);
    assert digits == Zeros(zeros) + rest;
    LeadingZerosWeighNothing(zeros, rest, from);
    DigitsOfNumberOf(rest, from);
    var there := Rebase(digits, from, to);
    DigitsOfStartsNonZero(number, to);
    LeadingIs(there, zeros);
    LeadingZerosWeighNothing(zeros, DigitsOf(number, to), to);
    NumberOfDigitsOf(number, to);
  }

  // ----- text -----

  function TextOf(digits: seq<int>): (text: string)
    requires Digits(digits, 58)
    ensures |text| == |digits| && forall i :: 0 <= i < |digits| ==> text[i] == CharOf(digits[i])
  {
    seq(|digits|, i requires 0 <= i < |digits| => CharOf(digits[i]))
  }

  function ValuesOf(text: string): (digits: seq<int>)
    requires IsBase58(text)
    ensures Digits(digits, 58) && |digits| == |text|
    ensures forall i :: 0 <= i < |text| ==> digits[i] == Values()[text[i]]
  {
    seq(|text|, i requires 0 <= i < |text| => Values()[text[i]])
  }

  function Encoded(bytes: seq<Byte>): string {
    TextOf(Rebase(bytes, 256, 58))
  }

  function Decoded(text: string): Result<seq<Byte>> {
    if !IsBase58(text) then Failure(InvalidInput)
    else
      Success(Rebase(ValuesOf(text), 58, 256))
  }

  /** Every byte string comes back from its text. */
  lemma DecodeEncoded(bytes: seq<Byte>)
    ensures IsBase58(Encoded(bytes))
    ensures Decoded(Encoded(bytes)) == Success(bytes)
  {
    var digits := Rebase(bytes, 256, 58);
    var text := Encoded(bytes);
    assert ValuesOf(text) == digits;
    RebaseRoundTrip(bytes, 256, 58);
  }

  /** Every text over the alphabet comes back from its bytes; any other text is refused. */
  lemma EncodeDecoded(text: string)
    ensures Decoded(text).Success? <==> IsBase58(text)
    ensures IsBase58(text) ==> Encoded(Decoded(text).value) == text
  {
    if IsBase58(text) {
      RebaseRoundTrip(ValuesOf(text), 58, 256);
      var again := TextOf(ValuesOf(text));
      assert forall i :: 0 <= i < |text| ==> again[i] == text[i];
    }
  }

  // ----- the two loops -----

  /** The first loop of encoding: the number the bytes stand for. */
  method NumberOfBytes(bytes: seq<Byte>) returns (number: int)
    ensures number == NumberOf(bytes, 256) >= 0
  {
    number := 0;
    for i := 0 to |bytes|
      invariant number == NumberOf(bytes[..i], 256) >= 0
    {
      assert bytes[..i + 1][..i] == bytes[..i];
      number := number * 256 + bytes[i];
    }
    assert bytes[..|bytes|] == bytes;
  }

  lemma DigitWritten(number: nat, written: seq<int>, whole: seq<int>)
    requires number > 0 && Digits(written, 58) && DigitsOf(number, 58) + written == whole
    ensures 0 <= number / 58 < number && Digits([number % 58] + written, 58)
    ensures TextOf([number % 58] + written) == [CharOf(number % 58)] + TextOf(written)
    ensures DigitsOf(number / 58, 58) + ([number % 58] + written) == whole
  {
    QuotientIsSmaller(number, 58);
  }

  /** The second: its digits, written from the last. */
  method TextOfNumber(n: nat) returns (text: string)
    ensures text == TextOf(DigitsOf(n, 58))
  {
    var number: int := n;
    text := "";
    ghost var written: seq<int> := [];
    while number > 0
      invariant number >= 0 && Digits(written, 58) && text == TextOf(written)
      invariant DigitsOf(number, 58) + written == DigitsOf(n, 58)
      decreases number
    {
      DigitWritten(number, written, DigitsOf(n, 58));
      text := [Symbol(number % 58)] + text;
      written := [number % 58] + written;
      number := number / 58;
    }
    assert written == DigitsOf(n, 58);
  }

  lemma OneInFront(zeros: nat, digits: seq<int>)
    requires Digits(digits, 58)
    ensures Digits(Zeros(zeros) + digits, 58) && Digits(Zeros(zeros + 1) + digits, 58)
    ensures TextOf(Zeros(zeros + 1) + digits) == "1" + TextOf(Zeros(zeros) + digits)
  {
    assert [0] + (Zeros(zeros) + digits) == Zeros(zeros + 1) + digits;
  }

  method EncodeBase58(bytes: seq<Byte>) returns (text: string)
    ensures text == Encoded(bytes)
  {
    if |bytes| == 0 {
      return "";
    }
    var number := NumberOfBytes(bytes);
    text := TextOfNumber(number);
    ghost var whole := DigitsOf(number, 58);
    var i := 0;
    OneInFront(0, whole);
    assert Zeros(0) + whole == whole;
    while i < |bytes| && bytes[i] == 0
      invariant i <= |bytes| && forall j :: 0 <= j < i ==> bytes[j] == 0
      invariant Digits(Zeros(i) + whole, 58) && text == TextOf(Zeros(i) + whole)
    {
      OneInFront(i, whole);
      text := "1" + text;
      i := i + 1;
    }
    LeadingIs(bytes, i);
  }

  /** The first loop of decoding: the number the text stands for, unless a character stands for nothing. */
  method ReadNumber(text: string) returns (r: Result<nat>)
    ensures r.Success? <==> IsBase58(text)
    ensures r.Failure? ==> r.problem == InvalidInput
    ensures r.Success? ==> r.value == NumberOf(ValuesOf(text), 58)
  {
    var number := 0;
    for i := 0 to |text|
      invariant IsBase58(text[..i])
      invariant number == NumberOf(ValuesOf(text[..i]), 58) >= 0
    {
      if text[i] !in Values() {
        return Failure(InvalidInput);
      }
      assert ValuesOf(text[..i + 1])[..i] == ValuesOf(text[..i]);
      number := number * 58 + Values()[text[i]];
    }
    assert text[..|text|] == text;
    return Success(number);
  }

  /** The second: its bytes, from the last. */
  method BytesOfNumber(n: nat) returns (bytes: seq<Byte>)
    ensures bytes == DigitsOf(n, 256)
  {
    var number: int := n;
    bytes := [];
    while number > 0
      invariant number >= 0
      invariant DigitsOf(number, 256) + bytes == DigitsOf(n, 256)
      decreases number
    {
      QuotientIsSmaller(number, 256);
      bytes := [number % 256] + bytes;
      number := number / 256;
    }
  }

  lemma EmptyRebases(from: nat, to: nat)
    requires from > 1 && to > 1
    ensures Rebase([], from, to) == []
  {
  }

  /** Ones, and only ones, stand for zero. */
  lemma OneIsZero(c: char)
    requires c in Values()
    ensures Values()[c] == 0 <==> c == '1'
  {
    assert CharOf(0) == '1';
  }

  /** The last: a zero byte for every leading one. */
  method LeadingZeros(text: string, rest: seq<Byte>) returns (bytes: seq<Byte>)
    requires IsBase58(text)
    ensures bytes == Zeros(Leading(ValuesOf(text))) + rest
  {
    ghost var values := ValuesOf(text);
    bytes := rest;
    var i := 0;
    while i < |text| && text[i] == '1'
      invariant i <= |text| && forall j :: 0 <= j < i ==> values[j] == 0
      invariant bytes == Zeros(i) + rest
    {
      OneIsZero(text[i]);
      assert [0] + (Zeros(i) + rest) == Zeros(i + 1) + rest;
      bytes := [0] + bytes;
      i := i + 1;
    }
    if i < |text| {
      OneIsZero(text[i]);
    }
    LeadingIs(values, i);
  }

  method DecodeBase58(text: string) returns (r: Result<seq<Byte>>)
    ensures r == Decoded(text)
  {
    if |text| == 0 {
      EmptyRebases(58, 256);
      assert ValuesOf(text) == [];
      return Success([]);
    }
    var read := ReadNumber(text);
    if read.Failure? {
      return Failure(read.problem);
    }
    var bytes := BytesOfNumber(read.value);
    bytes := LeadingZeros(text, bytes);
    return Success(bytes);
  }
}
