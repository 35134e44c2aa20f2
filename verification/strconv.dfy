/** Decimal rendering of integers and list joining, as used to print the inventory,
    together with the parser that reads such a rendering back. */
module Strconv {
  import opened Wrappers

  predicate IsDigit(c: char) {
    '0' <= c <= '9'
  }

  predicate AllDigits(s: string) {
    forall i :: 0 <= i < |s| ==> IsDigit(s[i])
  }

  function DigitValue(c: char): (d: nat)
    requires IsDigit(c)
    ensures d < 10
  {
    c as int - '0' as int
  }

  function DigitChar(d: nat): (c: char)
    requires d < 10
    ensures IsDigit(c) && DigitValue(c) == d
  {
    ('0' as int + d) as char
  }

  /** The decimal digits of `n`, most significant first, without leading zeros. */
  function NatToDecimal(n: nat): (s: string)
    ensures |s| > 0 && AllDigits(s)
    ensures s[0] == '0' ==> n == 0 && |s| == 1
    decreases n
  {
    if n < 10 then [DigitChar(n)] else NatToDecimal(n / 10) + [DigitChar(n % 10)]
  }

  /** The number a string of decimal digits denotes. */
  function DecimalValue(s: string): nat
    requires AllDigits(s)
    decreases |s|
  {
    if |s| == 0 then 0 else DecimalValue(s[..|s| - 1]) * 10 + DigitValue(s[|s| - 1])
  }

  /** Reading back the digits of `n` gives `n`. */
  lemma {:induction false} DecimalRoundTrip(n: nat)
    ensures DecimalValue(NatToDecimal(n)) == n
    decreases n
  {
    if n >= 10 {
      var s := NatToDecimal(n);
      assert s[..|s| - 1] == NatToDecimal(n / 10);
      DecimalRoundTrip(n / 10);
    }
  }

  /** Go's `strconv.Itoa`: a leading '-' for negatives, then the decimal digits, with no
      leading zeros. */
  function Itoa(x: int): (s: string)
    ensures |s| > 0
    ensures x >= 0 <==> IsDigit(s[0])
    ensures forall i :: 0 <= i < |s| ==> IsDigit(s[i]) || (i == 0 && s[i] == '-')
    ensures x >= 0 && |s| > 1 ==> s[0] != '0'
    ensures x < 0 ==> |s| > 1 && s[1] != '0'
  {
    if x < 0 then "-" + NatToDecimal(-x) else NatToDecimal(x)
  }

  /** Reads an optional '-' followed by at least one decimal digit. */
  function ParseInt(s: string): (r: Option<int>)
    ensures r.Some? ==> |s| > 0
  {
    if |s| > 0 && s[0] == '-' then
      if |s| > 1 && AllDigits(s[1..]) then
        var magnitude: int := DecimalValue(s[1..]);
        Some(-magnitude)
      else None
    else if |s| > 0 && AllDigits(s) then Some(DecimalValue(s))
    else None
  }

  /** `ParseInt` inverts `Itoa` on every integer. */
  lemma ItoaRoundTrip(x: int)
    ensures ParseInt(Itoa(x)) == Some(x)
  {
    if x < 0 {
      assert Itoa(x)[1..] == NatToDecimal(-x);
      DecimalRoundTrip(-x);
    } else {
      DecimalRoundTrip(x);
    }
  }

  /** Go's `strings.Join`: the parts with `sep` between neighbours. */
  function Join(parts: seq<string>, sep: string): string
    decreases |parts|
  {
    if |parts| == 0 then ""
    else if |parts| == 1 then parts[0]
    else parts[0] + sep + Join(parts[1..], sep)
  }

  /** `Itoa` applied to every element. */
  function ItoaAll(xs: seq<int>): (r: seq<string>)
    ensures |r| == |xs|
    ensures forall i :: 0 <= i < |xs| ==> r[i] == Itoa(xs[i])
  {
    seq(|xs|, i requires 0 <= i < |xs| => Itoa(xs[i]))
  }

  /** The position of the first `c` in `s`, if any. */
  function IndexOf(s: string, c: char): (r: Option<nat>)
    ensures r.Some? ==> r.value < |s| && s[r.value] == c
    ensures r.Some? ==> forall i :: 0 <= i < r.value ==> s[i] != c
    ensures r.None? <==> forall i :: 0 <= i < |s| ==> s[i] != c
    decreases |s|
  {
    if |s| == 0 then None
    else if s[0] == c then Some(0)
    else match IndexOf(s[1..], c)
      case None => None
      case Some(k) => Some(k + 1)
  }

  /** Reads a non-empty list of integers separated by ", ". */
  function ParseIntList(s: string): Option<seq<int>>
    decreases |s|
  {
    match IndexOf(s, ',')
    case None =>
      (match ParseInt(s)
       case Some(x) => Some([x])
       case None => None)
    case Some(k) =>
      if k + 1 < |s| && s[k + 1] == ' ' then
        match (ParseInt(s[..k]), ParseIntList(s[k + 2..]))
        case (Some(x), Some(xs)) => Some([x] + xs)
        case _ => None
      else None
  }

  /** Joining the renderings of a non-empty list with ", " and parsing the result back
      gives the list. */
  lemma {:induction false} JoinedIntsRoundTrip(xs: seq<int>)
    requires |xs| > 0
    ensures ParseIntList(Join(ItoaAll(xs), ", ")) == Some(xs)
    decreases |xs|
  {
    var parts := ItoaAll(xs);
    var head := Itoa(xs[0]);
    ItoaRoundTrip(xs[0]);
    if |xs| == 1 {
      assert Join(parts, ", ") == head;
      assert IndexOf(head, ',').None?;
      assert [xs[0]] == xs;
    } else {
      assert parts[1..] == ItoaAll(xs[1..]);
      var rest := Join(parts[1..], ", ");
      var s := Join(parts, ", ");
      assert s == head + ", " + rest;
      assert s[|head|] == ',';
      assert forall i :: 0 <= i < |head| ==> s[i] == head[i] && head[i] != ',';
      assert IndexOf(s, ',') == Some(|head|);
      assert s[..|head|] == head;
      assert s[|head| + 2..] == rest;
      JoinedIntsRoundTrip(xs[1..]);
      assert [xs[0]] + xs[1..] == xs;
    }
  }
}
