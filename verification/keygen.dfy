/** The key that the lifecycle gateway generates for a record created without
    one: `langflow-<timestamp>-<random>`, both numbers printed in decimal. */
module KeyGen {
  import opened Base

  const KeyPrefix: string := "langflow-"

  predicate IsDigit(c: char) {
    '0' <= c <= '9'
  }

  predicate AllDigits(s: string) {
    forall i :: 0 <= i < |s| ==> IsDigit(s[i])
  }

  function DigitChar(d: nat): (c: char)
    requires d < 10
  {
    ('0' as int + d) as char
  }

  function DigitValue(c: char): nat
    requires IsDigit(c)
  {
    c as int - '0' as int
  }

  /** The decimal rendering of a non-negative integer, as a template literal prints it. */
  function Decimal(n: nat): (s: string)
    ensures |s| >= 1 && AllDigits(s)
    ensures s[0] == '0' ==> n == 0
    ensures n < 10 ==> |s| == 1
    ensures n < 100 ==> |s| <= 2
    ensures n < 1000 ==> |s| <= 3
    decreases n
  {
    if n < 10 then [DigitChar(n)] else Decimal(n / 10) + [DigitChar(n % 10)]
  }

  /** Reads a string of decimal digits back as a number. */
  function ParseDecimal(s: string): nat
    requires AllDigits(s)
  {
    if |s| == 0 then 0 else ParseDecimal(s[..|s| - 1]) * 10 + DigitValue(s[|s| - 1])
  }

  /** Printing a number and reading it back gives the number. */
  lemma {:induction false} DecimalRoundTrip(n: nat)
    ensures ParseDecimal(Decimal(n)) == n
  {
    if n >= 10 {
      var s := Decimal(n);
      assert s[..|s| - 1] == Decimal(n / 10);
      DecimalRoundTrip(n / 10);
    }
  }

  /** The position of the first `c` in `s`, or `|s|` when there is none. */
  function IndexOf(s: string, c: char): (k: nat)
    ensures k <= |s|
    ensures forall i :: 0 <= i < k ==> s[i] != c
    ensures k < |s| ==> s[k] == c
  {
    if |s| == 0 then 0 else if s[0] == c then 0 else 1 + IndexOf(s[1..], c)
  }

  /** The key given to a record created without one (`random` is
      `Math.floor(Math.random() * 1000)`). It matches `langflow-<digits>-<digits>`
      and gives back the timestamp and random suffix it was built from. */
  function GeneratedKey(timestamp: nat, random: nat): (key: string)
    ensures |key| > |KeyPrefix| && key[..|KeyPrefix|] == KeyPrefix
    ensures ParseGeneratedKey(key) == Some((timestamp, random))
  {
    KeyPartsRoundTrip(timestamp, random);
    KeyPrefix + Decimal(timestamp) + "-" + Decimal(random)
  }

  /** Recognises the generated-key pattern and recovers the two numbers. */
  function ParseGeneratedKey(key: string): Option<(nat, nat)> {
    if |key| < |KeyPrefix| || key[..|KeyPrefix|] != KeyPrefix then None
    else
      var rest := key[|KeyPrefix|..];
      var j := IndexOf(rest, '-');
      if j == |rest| then None
      else
        var a := rest[..j];
        var b := rest[j + 1..];
        if |a| > 0 && |b| > 0 && AllDigits(a) && AllDigits(b)
        then Some((ParseDecimal(a), ParseDecimal(b)))
        else None
  }

  /** `langflow-`, two printed numbers and a dash between them parse back to
      the two numbers. */
  lemma KeyPartsRoundTrip(timestamp: nat, random: nat)
    ensures ParseGeneratedKey(KeyPrefix + Decimal(timestamp) + "-" + Decimal(random)) == Some((timestamp, random))
  {
    var key := KeyPrefix + Decimal(timestamp) + "-" + Decimal(random);
    var dt := Decimal(timestamp);
    var dr := Decimal(random);
    assert key[..|KeyPrefix|] == KeyPrefix;
    var rest := key[|KeyPrefix|..];
    assert rest == dt + "-" + dr;
    var j := IndexOf(rest, '-');
    assert rest[|dt|] == '-';
    assert forall i :: 0 <= i < |dt| ==> rest[i] == dt[i];
    assert j == |dt|;
    assert rest[..j] == dt;
    assert rest[j + 1..] == dr;
    DecimalRoundTrip(timestamp);
    DecimalRoundTrip(random);
  }

  /** Distinct (timestamp, random) pairs give distinct keys. */
  lemma GeneratedKeysInjective(t1: nat, r1: nat, t2: nat, r2: nat)
    requires GeneratedKey(t1, r1) == GeneratedKey(t2, r2)
    ensures t1 == t2 && r1 == r2
  {
    assert ParseGeneratedKey(GeneratedKey(t1, r1)) == Some((t1, r1));
    assert ParseGeneratedKey(GeneratedKey(t2, r2)) == Some((t2, r2));
  }
}
