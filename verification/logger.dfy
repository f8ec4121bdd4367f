/** `padding` from the logger: left-pads the decimal text of a number with
    zeros up to a minimum width. */
module Logger {
  import Decimal

  function Zeros(n: nat): (r: string)
    ensures |r| == n
    ensures forall i :: 0 <= i < n ==> r[i] == '0'
  {
    if n == 0 then "" else "0" + Zeros(n - 1)
  }

  function Padding(num: int, length: int): (r: string)
    ensures |r| == if |Decimal.IntToString(num)| < length then length else |Decimal.IntToString(num)|
    ensures r[|r| - |Decimal.IntToString(num)|..] == Decimal.IntToString(num)
    ensures forall i :: 0 <= i < |r| - |Decimal.IntToString(num)| ==> r[i] == '0'
    ensures |Decimal.IntToString(num)| >= length ==> r == Decimal.IntToString(num)
  {
    var str := Decimal.IntToString(num);
    if |str| < length then Zeros(length - |str|) + str else str
  }

  lemma {:induction false} ZerosValue(n: nat)
    ensures forall i :: 0 <= i < n ==> Decimal.IsDigit(Zeros(n)[i])
    ensures Decimal.DigitsValue(Zeros(n)) == 0
  {
    if n > 0 {
      ZerosValue(n - 1);
      assert Zeros(n) == Zeros(n - 1) + "0";
      assert Zeros(n)[..n - 1] == Zeros(n - 1);
    }
  }

  /** The padded text of a non-negative number still reads back as that
      number: the added zeros are leading zeros only. */
  lemma PaddingRoundTrip(num: nat, length: int)
    ensures Decimal.StringToNumber(Padding(num, length)) == Decimal.Int(num)
  {
    var str := Decimal.IntToString(num);
    assert str == Decimal.NatToDecimal(num);
    Decimal.NatToDecimalValue(num);
    var p := Padding(num, length);
    if |str| < length {
      var z := Zeros(length - |str|);
      assert p == z + str;
      ZerosValue(length - |str|);
      Decimal.DigitsValueAppend(z, str);
      assert Decimal.IsDigits(p);
      assert Decimal.DigitsValue(p) == 0 * Decimal.Pow10(|str|) + num;
    } else {
      assert p == str;
    }
    assert Decimal.IsDigits(p) && Decimal.DigitsValue(p) == num;
  }
}
