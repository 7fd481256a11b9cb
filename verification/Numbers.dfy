/** Decimal numerals: writing a long long backwards into a buffer, and reading it back. */
module Numbers {

  const LLONG_MAX := 0x7fff_ffff_ffff_ffff
  const LLONG_MIN := -0x8000_0000_0000_0000
  const ULLONG_MAX := 0xffff_ffff_ffff_ffff

  predicate IsLongLong(v: int) {
    LLONG_MIN <= v <= LLONG_MAX
  }

  // ----- Numerals ----------------------------------------------------------------------------------------

  function Digit(d: nat): char
    requires d < 10
  {
    ['0', '1', '2', '3', '4', '5', '6', '7', '8', '9'][d]
  }

  predicate IsDigit(c: char) {
    '0' <= c <= '9'
  }

  function DigitValue(c: char): (d: nat)
    requires IsDigit(c)
    ensures d < 10 && Digit(d) == c
  {
    c as int - '0' as int
  }

  // The decimal numeral of v.
  function Numeral(v: nat): (s: string)
    ensures |s| > 0
  {
    if v < 10 then [Digit(v)] else Numeral(v / 10) + [Digit(v % 10)]
  }

  function Repr(v: int): string {
    if v < 0 then "-" + Numeral(-v) else Numeral(v)
  }

  predicate AllDigits(s: string) {
    forall i :: 0 <= i < |s| ==> IsDigit(s[i])
  }

  function Value(s: string): nat
    requires AllDigits(s)
  {
    if s == [] then 0 else Value(s[..|s| - 1]) * 10 + DigitValue(s[|s| - 1])
  }

  lemma ValueUnfolds(s: string)
    requires AllDigits(s)
    ensures s == [] ==> Value(s) == 0
    ensures s != [] ==> Value(s) == Value(s[..|s| - 1]) * 10 + DigitValue(s[|s| - 1])
  {
  }

  lemma {:induction false} NumeralValue(v: nat)
    ensures AllDigits(Numeral(v)) && Value(Numeral(v)) == v && (v > 0 ==> Numeral(v)[0] != '0')
  {
    if v >= 10 {
      NumeralValue(v / 10);
      assert Numeral(v)[..|Numeral(v)| - 1] == Numeral(v / 10);
    } else {
      assert [Digit(v)][..0] == [];
    }
  }

  // A digit string that does not begin with 0 is the numeral of its value.
  lemma {:induction false} ValueNumeral(s: string)
    requires s != [] && AllDigits(s) && s[0] != '0'
    ensures Numeral(Value(s)) == s && Value(s) > 0
  {
    var n := |s| - 1;
    if n == 0 {
      assert s[..0] == [] && s == [s[0]];
    } else {
      ValueNumeral(s[..n]);
      assert s == s[..n] + [s[n]];
      hide Value;
      ValueUnfolds(s);
      Ones(Value(s[..n]), DigitValue(s[n]));
    }
  }

  lemma Ones(a: nat, d: nat)
    requires d < 10
    ensures (a * 10 + d) / 10 == a && (a * 10 + d) % 10 == d
  {
  }

  // ----- digits10 ----------------------------------------------------------------------------------------

  // Three, or twelve, digits at a time.
  function Digits10(v: nat): nat {
    if v < 10 then 1
    else if v < 100 then 2
    else if v < 1000 then 3
    else if v < 1000000000000 then
      if v < 100000000 then
        if v < 1000000 then
          if v < 10000 then 4 else 5 + (if v >= 100000 then 1 else 0)
        else 7 + (if v >= 10000000 then 1 else 0)
      else if v < 10000000000 then 9 + (if v >= 1000000000 then 1 else 0)
      else 11 + (if v >= 100000000000 then 1 else 0)
    else 12 + Digits10(v / 1000000000000)
  }

  function Pow10(k: nat): nat {
    if k == 0 then 1 else 10 * Pow10(k - 1)
  }

  lemma {:induction false} NumeralLength(v: nat, k: nat)
    requires k > 0 && v < Pow10(k) && (k == 1 || Pow10(k - 1) <= v)
    ensures |Numeral(v)| == k
  {
    if k > 1 {
      assert Pow10(k - 1) >= 10 by { PowPositive(k - 2); }
      NumeralLength(v / 10, k - 1);
    }
  }

  lemma {:induction false} PowPositive(k: nat)
    ensures Pow10(k) >= 1
  {
    if k > 0 { PowPositive(k - 1); }
  }

  lemma {:induction false} PowSum(a: nat, b: nat)
    ensures Pow10(a + b) == Pow10(a) * Pow10(b)
  {
    if a > 0 {
      PowSum(a - 1, b);
    }
  }

  lemma PowValues()
    ensures Pow10(1) == 10 && Pow10(2) == 100 && Pow10(3) == 1000 && Pow10(4) == 10000 && Pow10(5) == 100000
    ensures Pow10(6) == 1000000 && Pow10(7) == 10000000 && Pow10(8) == 100000000 && Pow10(9) == 1000000000
    ensures Pow10(10) == 10000000000 && Pow10(11) == 100000000000 && Pow10(12) == 1000000000000
  {
    assert Pow10(4) == 10 * Pow10(3);
    assert Pow10(6) == 100 * Pow10(4);
    assert Pow10(8) == 100 * Pow10(6);
    assert Pow10(10) == 100 * Pow10(8);
    assert Pow10(12) == 100 * Pow10(10);
  }

  // digits10 brackets v between powers of ten ...
  lemma {:induction false} Digits10Brackets(v: nat)
    ensures var k := Digits10(v); k > 0 && v < Pow10(k) && (k == 1 || Pow10(k - 1) <= v)
  {
    PowValues();
    if v >= 1000000000000 {
      var w := v / 1000000000000;
      Digits10Brackets(w);
      var k := Digits10(w);
      PowSum(12, k);
      if k > 1 { PowSum(12, k - 1); }
      Twelve(v, w, Pow10(k), if k > 1 then Pow10(k - 1) else 1);
    }
  }

  lemma Twelve(v: nat, w: nat, hi: nat, lo: nat)
    requires w == v / 1000000000000 && lo <= w < hi
    ensures 1000000000000 * lo <= v < 1000000000000 * hi
  {
  }

  // ... so it is the number of digits.
  lemma Digits10IsLength(v: nat)
    ensures Digits10(v) == |Numeral(v)|
  {
    Digits10Brackets(v);
    NumeralLength(v, Digits10(v));
  }

  // Any long long fits into 21 bytes with its sign and the terminator.
  lemma ReprIsShort(v: int)
    requires IsLongLong(v)
    ensures |Repr(v)| <= 20
  {
    var w := if v < 0 then -v else v;
    Digits10IsLength(w);
    Digits10Brackets(w);
    PowSum(12, 8);
    PowValues();
    if Digits10(w) > 19 {
      PowMonotone(19, Digits10(w) - 1);
      PowSum(12, 7);
    }
  }

  lemma {:induction false} PowMonotone(a: nat, b: nat)
    requires a <= b
    ensures Pow10(a) <= Pow10(b)
  {
    if a < b { PowMonotone(a, b - 1); }
  }

  // ----- ll2string ---------------------------------------------------------------------------------------

  // The table of the two digits of every number below one hundred.
  function DigitAt(i: nat): char
    requires i < 200
  {
    Digit(if i % 2 == 0 then i / 20 else i / 2 % 10)
  }

  lemma Split(v: nat)
    requires v >= 10
    ensures v / 10 / 10 == v / 100 && v % 100 / 10 == v / 10 % 10 && v % 100 % 10 == v % 10
    ensures v < 100 ==> v / 10 % 10 == v / 10
  {
  }

  lemma NumeralUnfolds(v: nat)
    ensures v < 10 ==> Numeral(v) == [Digit(v)]
    ensures v >= 10 ==> Numeral(v) == Numeral(v / 10) + [Digit(v % 10)]
  {
  }

  lemma TwoDigits(v: nat)
    requires v >= 10
    ensures var i := v % 100 * 2; var pair := [DigitAt(i), DigitAt(i + 1)];
            Numeral(v) == if v >= 100 then Numeral(v / 100) + pair else pair
  {
    hide Numeral, Digit;
    Split(v);
    NumeralUnfolds(v);
    NumeralUnfolds(v / 10);
    var c := v % 100;
    assert DigitAt(c * 2) == Digit(c / 10) && DigitAt(c * 2 + 1) == Digit(c % 10);
  }

  method WritePair(dst: array<char>, next: nat, i: nat, ghost from: nat, ghost to: nat)
    requires from < next < to <= dst.Length && i + 1 < 200
    modifies dst
    ensures dst[next - 1..to] == [DigitAt(i), DigitAt(i + 1)] + old(dst[next + 1..to])
    ensures dst[to..] == old(dst[to..]) && dst[..from] == old(dst[..from])
  {
    dst[next] := DigitAt(i + 1);
    dst[next - 1] := DigitAt(i);
  }

  // Writes from the last digit backwards, two at a time: fills dst from "from" to "to" with the numeral.
  method WriteDigits(dst: array<char>, from: nat, to: nat, svalue: nat)
    requires from + |Numeral(svalue)| == to <= dst.Length
    modifies dst
    ensures dst[from..to] == Numeral(svalue)
    ensures dst[to..] == old(dst[to..]) && dst[..from] == old(dst[..from])
  {
    hide Numeral, Digit, DigitAt;
    var value, next := svalue, to - 1;
    while value >= 100
      invariant from <= next < to && next + 1 - from == |Numeral(value)|
      invariant Numeral(svalue) == Numeral(value) + dst[next + 1..to]
      invariant dst[to..] == old(dst[to..]) && dst[..from] == old(dst[..from])
    {
      TwoDigits(value);
      var i := value % 100 * 2;
      value := value / 100;
      WritePair(dst, next, i, from, to);
      next := next - 2;
    }
    WriteLast(dst, next, value, from, to);
  }

  // The one or two digits that are left.
  method WriteLast(dst: array<char>, next: nat, value: nat, ghost from: nat, ghost to: nat)
    requires value < 100 && from <= next < to <= dst.Length && next + 1 - from == |Numeral(value)|
    modifies dst
    ensures dst[from..to] == Numeral(value) + old(dst[next + 1..to])
    ensures dst[to..] == old(dst[to..]) && dst[..from] == old(dst[..from])
  {
    hide Numeral, Digit, DigitAt;
    ghost var tail := dst[next + 1..to];
    NumeralUnfolds(value);
    if value < 10 {
      dst[next] := Digit(value);
      assert dst[from..to] == [Digit(value)] + tail;
    } else {
      TwoDigits(value);
      WritePair(dst, next, value * 2, from, to);
    }
  }

  // Writes a number and a terminator to dst from index "at" on, where dstlen characters are free. The result
  // is 0 when they are too few.
  method Ll2String(dst: array<char>, at: nat, dstlen: nat, svalue: int) returns (length: nat)
    requires at + dstlen <= dst.Length && IsLongLong(svalue)
    modifies dst
    ensures |Repr(svalue)| >= dstlen ==> length == 0 && dst[..] == old(dst[..])
    ensures |Repr(svalue)| < dstlen ==>
              length == |Repr(svalue)| && dst[at..at + length] == Repr(svalue) && dst[at + length] == '\0'
    ensures dst[..at] == old(dst[..at])
    ensures |Repr(svalue)| < dstlen ==> dst[at + length + 1..] == old(dst[at + length + 1..])
  {
    hide *;
    SignAndDigits(svalue);
    var value, sign := svalue, 0;
    if svalue < 0 {
      value, sign := if svalue != LLONG_MIN then -svalue else LLONG_MAX + 1, 1;
    }
    Digits10IsLength(value);
    length := Digits10(value) + sign;
    if length >= dstlen { return 0; }
    ghost var s := dst[..];
    dst[at + length] := '\0';
    WriteDigits(dst, at + sign, at + length, value);
    ghost var t := dst[..];
    if sign == 1 {
      dst[at] := '-';
    }
    Spelled(s, t, dst[..], at, length, sign, Numeral(value));
  }

  lemma SignAndDigits(v: int)
    ensures LLONG_MIN + LLONG_MAX == -1
    ensures v < 0 ==> Repr(v) == "-" + Numeral(-v)
    ensures v >= 0 ==> Repr(v) == "" + Numeral(v)
  {
    hide Numeral;
    assert v >= 0 ==> "" + Numeral(v) == Numeral(v);
  }

  // First the terminator was written, then the digits and last the sign, if there is one.
  lemma Spelled(s: seq<char>, t: seq<char>, u: seq<char>, at: nat, length: nat, sign: nat, digits: string)
    requires at + length < |s| == |t| && sign <= 1 && length == |digits| + sign
    requires t[at + sign..at + length] == digits && t[..at + sign] == s[..at + sign]
    requires t[at + length..] == s[at + length := '\0'][at + length..]
    requires u == if sign == 1 then t[at := '-'] else t
    ensures u[at..at + length] == (if sign == 1 then "-" else "") + digits && u[at + length] == '\0'
    ensures u[..at] == s[..at] && u[at + length + 1..] == s[at + length + 1..]
  {
    var z := s[at + length := '\0'];
    assert t[at + length] == z[at + length..][0] == '\0';
    forall k | at + length < k < |s|
      ensures t[k] == s[k]
    {
      assert t[k] == t[at + length..][k - at - length] == z[k];
    }
    assert t[..at] == t[..at + sign][..at];
  }

  // ----- string2ll ---------------------------------------------------------------------------------------

  datatype Option<T> = None | Some(value: T)

  function Zeros(z: nat): string {
    seq(z, i => '0')
  }

  // v with a sign, if negative, and z needless zeros.
  function Padded(v: int, z: nat): string {
    if v < 0 then "-" + Zeros(z) + Numeral(-v) else Zeros(z) + Numeral(v)
  }

  // What string2ll is for: 0, or a long long other than 0 with any number of zeros in front.
  ghost predicate Denotes(t: string, v: int) {
    if v == 0 then t == "0" else IsLongLong(v) && exists z: nat :: t == Padded(v, z)
  }

  lemma {:induction false} ValueGrows(s: string, n: nat)
    requires n <= |s| && AllDigits(s)
    ensures Value(s[..n]) <= Value(s)
    ensures n < |s| ==> Value(s[..n]) * 10 + DigitValue(s[n]) <= Value(s)
  {
    if n == |s| {
      assert s[..n] == s;
    } else if n == |s| - 1 {
    } else {
      var t := s[..|s| - 1];
      ValueGrows(t, n);
      assert t[..n] == s[..n];
    }
  }

  function SignLength(s: string): nat {
    if s != [] && s[0] == '-' then 1 else 0
  }

  function Signed(s: string, w: int): int {
    if SignLength(s) == 1 then -w else w
  }

  // The index of the first character from i on that is not 0.
  function AfterZeros(s: string, i: nat): (k: nat)
    requires i < |s| && s[|s| - 1] != '0'
    ensures i <= k < |s| && s[k] != '0' && forall j :: i <= j < k ==> s[j] == '0'
    decreases |s| - i
  {
    if s[i] == '0' then AfterZeros(s, i + 1) else i
  }

  // If t denotes v other than 0, then v is the value of what follows the sign and zeros.
  lemma DenotesValue(t: string, v: int, k: nat)
    requires v != 0 && Denotes(t, v)
    requires SignLength(t) <= k <= |t| && (forall j :: SignLength(t) <= j < k ==> t[j] == '0') && (k < |t| ==> t[k] != '0')
    ensures k < |t| && AllDigits(t[k..]) && Value(t[k..]) == (if v < 0 then -v else v)
    ensures v < 0 <==> SignLength(t) == 1
  {
    var w := if v < 0 then -v else v;
    NumeralValue(w);
    var z: nat :| t == Padded(v, z);
    assert Numeral(w)[0] != '-' && t[|t| - |Numeral(w)|] == Numeral(w)[0];
    assert v < 0 <==> SignLength(t) == 1;
    assert t[SignLength(t) + z..] == Numeral(w);
    assert k == SignLength(t) + z;
  }

  // Conversely, a digit string after sign and zeros denotes its signed value.
  lemma ValueDenotes(t: string, k: nat)
    requires SignLength(t) <= k < |t| && (forall j :: SignLength(t) <= j < k ==> t[j] == '0') && t[k] != '0'
    requires AllDigits(t[k..])
    ensures var v := Signed(t, Value(t[k..])); v != 0 && (IsLongLong(v) ==> Denotes(t, v))
  {
    ValueNumeral(t[k..]);
    var v := Signed(t, Value(t[k..]));
    assert t == Padded(v, k - SignLength(t));
  }

  // What a text other than 0 denotes, from the index after its sign and zeros.
  lemma Reading(t: string, k: nat)
    requires t != "0" && SignLength(t) <= k <= |t|
    requires (forall j :: SignLength(t) <= j < k ==> t[j] == '0') && (k < |t| ==> t[k] != '0')
    ensures forall v :: Denotes(t, v) <==>
              k < |t| && AllDigits(t[k..]) && v == Signed(t, Value(t[k..])) && IsLongLong(v)
  {
    forall v | Denotes(t, v)
      ensures k < |t| && AllDigits(t[k..]) && v == Signed(t, Value(t[k..]))
    {
      DenotesValue(t, v, k);
    }
    if k < |t| && AllDigits(t[k..]) {
      ValueDenotes(t, k);
    }
  }

  // Accumulates the digits from p to slen; the first one is read even at or past slen.
  method ReadDigits(s: string, slen: nat, start: nat) returns (r: Option<nat>)
    requires slen < |s| && start < |s| && '1' <= s[start] <= '9'
    ensures slen <= start ==> r == Some(DigitValue(s[start]))
    ensures start < slen ==> (r.Some? <==> AllDigits(s[start..slen]) && Value(s[start..slen]) <= ULLONG_MAX)
    ensures start < slen && r.Some? ==> r.value == Value(s[start..slen])
  {
    hide Value;
    var v: int := DigitValue(s[start]);
    var p := start + 1;
    assert s[start..p] == [s[start]] && s[start..p][..0] == [];
    ValueUnfolds(s[start..p]);
    ValueUnfolds([]);
    while p < slen && '0' <= s[p] <= '9'
      invariant start < p && (p <= slen || p == start + 1) && AllDigits(s[start..p])
      invariant v == Value(s[start..p]) && v <= ULLONG_MAX
    {
      ghost var t, m := s[start..slen], p - start;
      assert s[start..p] == t[..m] && s[p] == t[m];
      if AllDigits(t) { ValueGrows(t, m); }
      if v > ULLONG_MAX / 10 { return None; }
      v := v * 10;
      if v > ULLONG_MAX - DigitValue(s[p]) { return None; }
      v := v + DigitValue(s[p]);
      assert s[start..p + 1][..m] == s[start..p];
      ValueUnfolds(s[start..p + 1]);
      p := p + 1;
    }
    if p < slen {
      assert s[start..slen][p - start] == s[p];
      return None;
    }
    assert p == slen ==> s[start..p] == s[start..slen];
    r := Some(v);
  }

  lemma ZeroDenotes()
    ensures forall v :: Denotes("0", v) <==> v == 0
  {
    forall v | v != 0
      ensures !Denotes("0", v)
    {
      if Denotes("0", v) { DenotesValue("0", v, 1); }
    }
  }

  // The zeros run past the end of the number and a digit other than 0 follows them.
  predicate RunsOver(s: string, slen: nat)
    requires slen < |s| && s[|s| - 1] != '0'
  {
    slen > SignLength(s) && s[..slen] != "0" &&
    var k := AfterZeros(s, SignLength(s)); k >= slen && IsDigit(s[k])
  }

  // s is the buffer up to its terminator, of which the first slen characters are to be read.
  method String2Ll(s: string, slen: nat) returns (r: Option<int>)
    requires slen < |s| && s[|s| - 1] == '\0'
    ensures !RunsOver(s, slen) ==> forall v :: r == Some(v) <==> Denotes(s[..slen], v)
    ensures RunsOver(s, slen) ==>
              r == Some(Signed(s, DigitValue(s[AfterZeros(s, SignLength(s))])))
  {
    hide Denotes, Value, Padded;
    var p: nat := 0;
    ghost var t := s[..slen];
    if slen == 0 {
      Reading(t, 0);
      return None;
    }
    if slen == 1 && s[0] == '0' {
      assert t == "0";
      ZeroDenotes();
      return Some(0);
    }
    var negative := s[0] == '-';
    if negative {
      p := 1;
      if slen == 1 {
        assert t == "-";
        Reading(t, 1);
        return None;
      }
    }
    while s[p] == '0'
      invariant SignLength(s) <= p < |s|
      invariant forall j :: SignLength(s) <= j < p ==> s[j] == '0'
      decreases |s| - p
    {
      p := p + 1;
    }
    ghost var k := p;
    assert AfterZeros(s, SignLength(s)) == k;
    assert t != "0" && SignLength(t) == SignLength(s);
    ghost var reach := if k < slen then k else slen;
    Reading(t, reach);
    if k < slen { assert t[k..][0] == s[k] && t[k..] == s[k..slen]; }
    if !('1' <= s[p] <= '9') {
      assert reach < slen ==> !AllDigits(t[reach..]);
      assert forall v :: !Denotes(t, v);
      return None;
    }
    var read := ReadDigits(s, slen, p);
    if read.None? { return None; }
    var v: int := read.value;
    if negative {
      if v > -(LLONG_MIN + 1) + 1 { return None; }
      r := Some(-v);
    } else {
      if v > LLONG_MAX { return None; }
      r := Some(v);
    }
  }

  // The number is read from outside its text exactly when it runs over; a character after the text that is
  // not a digit prevents that.
  lemma OverrunIsWrong(s: string, slen: nat)
    requires slen < |s| && s[|s| - 1] == '\0'
    ensures RunsOver(s, slen) ==> forall v :: !Denotes(s[..slen], v)
    ensures !IsDigit(s[slen]) ==> !RunsOver(s, slen)
  {
    var t := s[..slen];
    if RunsOver(s, slen) {
      Reading(t, slen);
    }
  }

  lemma OverrunExample()
    ensures RunsOver("005\0", 2) && DigitValue("005\0"[AfterZeros("005\0", 0)]) == 5
  {
    var s := "005\0";
    assert AfterZeros(s, 0) == AfterZeros(s, 1) == AfterZeros(s, 2) == 2;
    assert |s[..2]| == 2;
  }

  // Every long long is written into 21 bytes, and what is written denotes it and nothing else.
  lemma NumberRoundTrip(v: int, w: int)
    requires IsLongLong(v)
    ensures |Repr(v)| < 21 && (Denotes(Repr(v), w) <==> w == v)
  {
    ReprIsShort(v);
    var n := if v < 0 then -v else v;
    NumeralValue(n);
    if v == 0 {
      ZeroDenotes();
    } else {
      var k := if v < 0 then 1 else 0;
      assert Repr(v)[k..] == Numeral(n);
      Reading(Repr(v), k);
    }
  }
}
