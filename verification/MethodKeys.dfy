/** The keys that tie the reviews of a batch to its methods. */
module MethodKeys {
  import opened Wrappers

  // `indexed_reviews` in src/analyzer_method_batch.rs reads a key as an `m` and a number.

  predicate IsDigit(c: char) {
    '0' <= c <= '9'
  }

  predicate AllDigits(text: string) {
    forall i :: 0 <= i < |text| ==> IsDigit(text[i])
  }

  function DigitsValue(digits: string): nat
    requires AllDigits(digits)
  {
    if digits == [] then 0
    else 10 * DigitsValue(digits[..|digits| - 1]) + DigitValue(digits[|digits| - 1])
  }

  function DigitValue(c: char): nat
    requires IsDigit(c)
  {
    c as int - '0' as int
  }

  /** `str::parse::<usize>`: an optional plus sign and at least one digit. */
  function ParseNumber(text: string): Option<nat> {
    var digits := if text != [] && text[0] == '+' then text[1..] else text;
    if digits != [] && AllDigits(digits) then Some(DigitsValue(digits)) else None
  }

  /** The slot a `method_key` names, if it names one of the `expected` slots. */
  function SlotIndex(key: Option<string>, expected: nat): Option<nat> {
    match key
    case None => None
    case Some(text) =>
      if text == [] || text[0] != 'm' then None
      else
        match ParseNumber(text[1..])
        case None => None
        case Some(n) => if n < expected then Some(n) else None
  }

  // The names of slots, as texts

  function Digits(n: nat): string {
    if n < 10 then [('0' as int + n) as char] else Digits(n / 10) + [('0' as int + n % 10) as char]
  }

  function Zeros(k: nat): string {
    seq(k, _ => '0')
  }

  /** The texts that name slot `i`: an `m`, maybe a plus sign, maybe zeros, and its number. */
  ghost predicate Names(text: string, i: nat) {
    text != [] && text[0] == 'm' && IsNumber(text[1..], i)
  }

  ghost predicate IsNumber(text: string, i: nat) {
    exists k: nat :: text == Zeros(k) + Digits(i) || text == "+" + (Zeros(k) + Digits(i))
  }

  lemma {:induction false} DigitsAreTheNumber(n: nat)
    ensures Digits(n) != [] && AllDigits(Digits(n)) && DigitsValue(Digits(n)) == n
  {
    if n >= 10 {
      DigitsAreTheNumber(n / 10);
      assert Digits(n)[..|Digits(n)| - 1] == Digits(n / 10);
    } else {
      assert Digits(n)[..0] == [];
    }
  }

  lemma {:induction false} ZerosAddNothing(k: nat, text: string)
    requires AllDigits(text)
    ensures AllDigits(Zeros(k) + text) && DigitsValue(Zeros(k) + text) == DigitsValue(text)
    decreases |text|, k
  {
    var all := Zeros(k) + text;
    if text != [] {
      var n := |text| - 1;
      ZerosAddNothing(k, text[..n]);
      assert all[..|all| - 1] == Zeros(k) + text[..n];
    } else if k > 0 {
      ZerosAddNothing(k - 1, []);
      assert all[..|all| - 1] == Zeros(k - 1) + [];
    }
  }

  /** Digits are the number they stand for, up to zeros in front. */
  lemma {:induction false} NumberOfDigits(text: string) returns (k: nat)
    requires text != [] && AllDigits(text)
    ensures text == Zeros(k) + Digits(DigitsValue(text))
  {
    var n := |text| - 1;
    var front, last := text[..n], text[n];
    assert text == front + [last];
    if front == [] {
      k := 0;
      assert Zeros(0) + text == text;
    } else {
      k := NumberOfDigits(front);
      if DigitsValue(front) == 0 {
        assert text == Zeros(k + 1) + [last];
        k := k + 1;
      } else {
        var v := DigitsValue(text);
        assert v / 10 == DigitsValue(front) && v % 10 == DigitValue(last);
        assert Digits(v) == Digits(DigitsValue(front)) + [last];
      }
    }
  }

  lemma NumberIsParsed(k: nat, i: nat)
    ensures ParseNumber(Zeros(k) + Digits(i)) == Some(i) && ParseNumber("+" + (Zeros(k) + Digits(i))) == Some(i)
  {
    var number := Zeros(k) + Digits(i);
    DigitsAreTheNumber(i);
    ZerosAddNothing(k, Digits(i));
    assert IsDigit(number[0]);
    assert ("+" + number)[0] == '+' && ("+" + number)[1..] == number;
  }

  lemma ParsedIsNumber(text: string, i: nat) returns (k: nat)
    requires ParseNumber(text) == Some(i)
    ensures text == Zeros(k) + Digits(i) || text == "+" + (Zeros(k) + Digits(i))
  {
    if text != [] && text[0] == '+' {
      k := NumberOfDigits(text[1..]);
      assert text == "+" + text[1..];
    } else {
      k := NumberOfDigits(text);
    }
  }

  lemma NumbersAreParsed(text: string, i: nat)
    ensures ParseNumber(text) == Some(i) <==> IsNumber(text, i)
  {
    if ParseNumber(text) == Some(i) {
      var k := ParsedIsNumber(text, i);
    }
    if k: nat :| text == Zeros(k) + Digits(i) || text == "+" + (Zeros(k) + Digits(i)) {
      NumberIsParsed(k, i);
    }
  }

  /** A key names a slot by its text, and no other way. */
  lemma KeysNameSlots(key: Option<string>, expected: nat, i: nat)
    ensures SlotIndex(key, expected) == Some(i) <==> key.Some? && i < expected && Names(key.value, i)
  {
    if key.Some? && key.value != [] {
      NumbersAreParsed(key.value[1..], i);
    }
  }

  /** The key the prompt gives a method names its slot. */
  lemma PromptKeysNameTheirSlots(expected: nat, i: nat)
    requires i < expected
    ensures SlotIndex(Some("m" + Digits(i)), expected) == Some(i)
  {
    var key := "m" + Digits(i);
    assert key[1..] == Zeros(0) + Digits(i);
    KeysNameSlots(Some(key), expected, i);
  }
}
