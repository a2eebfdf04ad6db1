/** Small vocabulary shared by the models: joining strings, decimal numerals and
    results of operations that may fail. */
module Text {

  datatype Option<+T> = None | Some(value: T)

  datatype Result<+T, +E> = Ok(value: T) | Err(error: E)

  /** The separator sits between consecutive words, as in Go's strings.Join. */
  function Join(words: seq<string>, separator: string): string {
    if words == [] then ""
    else if |words| == 1 then words[0]
    else words[0] + separator + Join(words[1..], separator)
  }

  lemma JoinSnoc(words: seq<string>, last: string, separator: string)
    requires words != []
    ensures Join(words + [last], separator) == Join(words, separator) + separator + last
  {
    if |words| == 1 {
      assert (words + [last])[1..] == [last];
    } else {
      assert (words + [last])[1..] == words[1..] + [last];
      JoinSnoc(words[1..], last, separator);
    }
  }

  predicate HasPrefix(s: string, prefix: string) {
    |prefix| <= |s| && s[..|prefix|] == prefix
  }

  /** Decimal digits, most significant first. */
  function Digits(n: nat): (ds: seq<nat>)
    ensures ds != [] && forall i :: 0 <= i < |ds| ==> ds[i] < 10
  {
    if n < 10 then [n] else Digits(n / 10) + [n % 10]
  }

  function Value(ds: seq<nat>): nat {
    if ds == [] then 0 else 10 * Value(ds[..|ds| - 1]) + ds[|ds| - 1]
  }

  lemma {:induction false} ValueOfDigits(n: nat)
    ensures Value(Digits(n)) == n
  {
    if n >= 10 {
      ValueOfDigits(n / 10);
      assert Digits(n)[..|Digits(n)| - 1] == Digits(n / 10);
    }
  }

  predicate IsDigit(c: char) { '0' <= c <= '9' }

  /** A nonempty run of ASCII digits. */
  predicate IsDecimal(s: string) {
    s != "" && forall i :: 0 <= i < |s| ==> IsDigit(s[i])
  }

  function DigitValue(c: char): nat
    requires IsDigit(c)
  {
    c as int - 48
  }

  function DigitsOf(s: string): seq<nat>
    requires forall i :: 0 <= i < |s| ==> IsDigit(s[i])
  {
    seq(|s|, i requires 0 <= i < |s| => DigitValue(s[i]))
  }

  function ParseDecimal(s: string): nat
    requires IsDecimal(s)
  {
    Value(DigitsOf(s))
  }

  /** strconv.Itoa on a natural number. */
  function Itoa(n: nat): (s: string)
    ensures IsDecimal(s)
  {
    var ds := Digits(n);
    seq(|ds|, i requires 0 <= i < |ds| => (48 + ds[i]) as char)
  }

  lemma ParseOfItoa(n: nat)
    ensures ParseDecimal(Itoa(n)) == n
  {
    assert DigitsOf(Itoa(n)) == Digits(n);
    ValueOfDigits(n);
  }

  // Leading zeros.

  function ZeroDigits(k: nat): seq<nat> { seq(k, _ => 0) }

  function Zeros(k: nat): string { seq(k, _ => '0') }

  lemma {:induction false} ValueAfterZeros(k: nat, ds: seq<nat>)
    ensures Value(ZeroDigits(k) + ds) == Value(ds)
    decreases k, |ds|
  {
    var all := ZeroDigits(k) + ds;
    if ds != [] {
      assert all[..|all| - 1] == ZeroDigits(k) + ds[..|ds| - 1];
      ValueAfterZeros(k, ds[..|ds| - 1]);
    } else if k > 0 {
      assert all[..|all| - 1] == ZeroDigits(k - 1) + [];
      ValueAfterZeros(k - 1, []);
    }
  }

  lemma DigitsOfSum(n: nat, d: nat)
    requires n > 0 && d < 10
    ensures Digits(10 * n + d) == Digits(n) + [d]
  {
    assert (10 * n + d) / 10 == n && (10 * n + d) % 10 == d;
  }

  /** Digits are those of their value after some zeros. */
  lemma {:induction false} ZerosAndDigits(ds: seq<nat>) returns (k: nat)
    requires ds != [] && forall i :: 0 <= i < |ds| ==> ds[i] < 10
    ensures ds == ZeroDigits(k) + Digits(Value(ds))
    decreases |ds|
  {
    var front, last := ds[..|ds| - 1], ds[|ds| - 1];
    if front == [] {
      assert Value(front) == 0;
      k := 0;
    } else {
      k := ZerosAndDigits(front);
      if Value(front) == 0 {
        assert front == ZeroDigits(k + 1);
        k := k + 1;
      } else {
        DigitsOfSum(Value(front), last);
      }
      assert ds == front + [last];
    }
  }

  lemma SameDigits(a: string, b: string)
    requires (forall i :: 0 <= i < |a| ==> IsDigit(a[i])) && (forall i :: 0 <= i < |b| ==> IsDigit(b[i]))
    requires DigitsOf(a) == DigitsOf(b)
    ensures a == b
  {
    assert |a| == |DigitsOf(a)| == |b|;
    forall i | 0 <= i < |a| ensures a[i] == b[i] {
      assert DigitsOf(a)[i] == DigitsOf(b)[i];
    }
  }

  lemma DigitsAfterZeros(k: nat, n: nat)
    ensures IsDecimal(Zeros(k) + Itoa(n)) && DigitsOf(Zeros(k) + Itoa(n)) == ZeroDigits(k) + Digits(n)
  {
  }

  /** The texts that read as a number are its numeral after any number of zeros. */
  lemma NumeralsOf(s: string, n: nat)
    ensures IsDecimal(s) && ParseDecimal(s) == n <==> exists k :: s == Zeros(k) + Itoa(n)
  {
    if IsDecimal(s) && ParseDecimal(s) == n {
      var k := ZerosAndDigits(DigitsOf(s));
      DigitsAfterZeros(k, n);
      SameDigits(s, Zeros(k) + Itoa(n));
    }
    if k :| s == Zeros(k) + Itoa(n) {
      DigitsAfterZeros(k, n);
      ValueAfterZeros(k, Digits(n));
      ValueOfDigits(n);
    }
  }

  function Flatten<T>(lists: seq<seq<T>>): seq<T> {
    if lists == [] then [] else lists[0] + Flatten(lists[1..])
  }
}
