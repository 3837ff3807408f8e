/** Decimal numbers in names and texts. */
module Numbers {

  predicate IsDigit(c: char) {
    '0' <= c <= '9'
  }

  /** The number that the digits at the end of a text denote. */
  function NumberAtEnd(s: string): nat {
    if s == "" || !IsDigit(s[|s| - 1]) then 0
    else 10 * NumberAtEnd(s[..|s| - 1]) + (s[|s| - 1] as int - '0' as int)
  }

  lemma NumberSnoc(s: string, c: char)
    ensures NumberAtEnd(s + [c]) == if IsDigit(c) then 10 * NumberAtEnd(s) + (c as int - '0' as int) else 0
    ensures NumberAtEnd("") == 0
  {
    assert (s + [c])[..|s|] == s;
  }

  /** std::to_string of an index. */
  function Decimal(n: nat): string {
    var digit := ['0' + (n % 10) as char];
    if n < 10 then digit else Decimal(n / 10) + digit
  }

  /** A number is written with digits only, which read back as the number, and without a leading zero. */
  lemma {:induction false} DecimalRoundTrip(n: nat)
    ensures NumberAtEnd(Decimal(n)) == n
    ensures forall i :: 0 <= i < |Decimal(n)| ==> IsDigit(Decimal(n)[i])
    ensures Decimal(n) != "" && (n > 0 ==> Decimal(n)[0] != '0')
  {
    var digit := '0' + (n % 10) as char;
    assert IsDigit(digit);
    if n < 10 {
      NumberSnoc("", digit);
      assert "" + [digit] == [digit];
    } else {
      DecimalRoundTrip(n / 10);
      NumberSnoc(Decimal(n / 10), digit);
    }
  }
}
