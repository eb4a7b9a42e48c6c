/**
 The length-prefixed stream protocol of `lesson_IO/Reactor/Protocol.hpp`: a package is
 the decimal length of a text, CRLF, the text, CRLF. Strings are sequences of bytes.
 `std::stoi` is modelled with its leading blanks, its sign, its digit prefix and its two
 exceptions, and the package length with its conversion to `int`.
 */
module Protocol {
  import opened Common

  const INT_MAX: int := 0x7fff_ffff
  const CRLF: string := "\r\n"

  // ---------- Decimal numbers ----------

  function Digit(d: nat): (c: char)
    requires d < 10
    ensures IsDigit(c) && DigitValue(c) == d
  {
    '0' + d as char
  }

  predicate IsDigit(c: char) {
    '0' <= c <= '9'
  }

  function DigitValue(c: char): (d: nat)
    requires IsDigit(c)
  {
    (c - '0') as nat
  }

  predicate AllDigits(s: string) {
    forall i :: 0 <= i < |s| ==> IsDigit(s[i])
  }

  /** `std::to_string`. */
  function Decimal(n: nat): (s: string)
    ensures s != [] && AllDigits(s)
  {
    if n < 10 then [Digit(n)] else Decimal(n / 10) + [Digit(n % 10)]
  }

  function Value(s: string): nat
    requires AllDigits(s)
  {
    if s == [] then 0 else Value(s[..|s| - 1]) * 10 + DigitValue(s[|s| - 1])
  }

  lemma {:induction false} DecimalValue(n: nat)
    ensures Value(Decimal(n)) == n
  {
    if n < 10 {
      assert [Digit(n)][..0] == [];
    } else {
      DecimalValue(n / 10);
      assert Decimal(n)[..|Decimal(n)| - 1] == Decimal(n / 10);
    }
  }

  /** Numbers that `int` can hold have at most ten digits. */
  lemma DecimalShort(n: nat)
    requires n <= INT_MAX
    ensures |Decimal(n)| <= 10
  {
    DecimalLength(n, 10);
  }

  function Pow10(k: nat): nat {
    if k == 0 then 1 else 10 * Pow10(k - 1)
  }

  lemma {:induction false} DecimalLength(n: nat, k: nat)
    requires k > 0 && n < Pow10(k)
    ensures |Decimal(n)| <= k
  {
    if n >= 10 { DecimalLength(n / 10, k - 1); }
  }

  predicate IsBlank(c: char) {
    c == ' ' || '\t' <= c <= '\r'
  }

  function SkipBlanks(s: string): string {
    if s != [] && IsBlank(s[0]) then SkipBlanks(s[1..]) else s
  }

  function DigitPrefix(s: string): (p: string)
    ensures AllDigits(p)
  {
    if s != [] && IsDigit(s[0]) then [s[0]] + DigitPrefix(s[1..]) else []
  }

  /** The number that the digits stand for; no number and a number that `int` cannot hold both throw. */
  function ToNumber(negative: bool, digits: string): Option<int>
    requires AllDigits(digits)
  {
    if digits == [] then None
    else
      var n: int := Value(digits);
      var v := if negative then -n else n;
      if -INT_MAX - 1 <= v <= INT_MAX then Some(v) else None
  }

  function WithoutSign(t: string): string {
    if t != [] && (t[0] == '-' || t[0] == '+') then t[1..] else t
  }

  /** `std::stoi`. */
  function Stoi(s: string): Option<int> {
    var t := SkipBlanks(s);
    ToNumber(t != [] && t[0] == '-', DigitPrefix(WithoutSign(t)))
  }

  lemma {:induction false} DigitPrefixAll(s: string)
    requires AllDigits(s)
    ensures DigitPrefix(s) == s
  {
    if s != [] { DigitPrefixAll(s[1..]); }
  }

  /** `stoi` reads back what `to_string` wrote exactly when `int` can hold it. */
  lemma StoiDecimal(n: nat)
    ensures Stoi(Decimal(n)) == if n <= INT_MAX then Some(n) else None
  {
    DigitPrefixAll(Decimal(n));
    DecimalValue(n);
    assert IsDigit(Decimal(n)[0]);
  }

  // ---------- What decimal notation is ----------

  /** What a digit is worth. */
  function Worth(c: char): int {
    match c
    case '0' => 0 case '1' => 1 case '2' => 2 case '3' => 3 case '4' => 4
    case '5' => 5 case '6' => 6 case '7' => 7 case '8' => 8 case '9' => 9
    case _ => -1
  }

  /** Every digit counts what it is worth times the power of ten of its place. */
  ghost function PlaceValue(s: string): int {
    if s == [] then 0 else Worth(s[0]) * Pow10(|s| - 1) + PlaceValue(s[1..])
  }

  /** `s` is `n` in decimal notation: digits, none of them a leading zero, that add up to `n`. */
  ghost predicate Numeral(s: string, n: int) {
    && s != [] && (forall i :: 0 <= i < |s| ==> Worth(s[i]) >= 0) && (s[0] == '0' ==> |s| == 1)
    && PlaceValue(s) == n
  }

  lemma DigitWorth(c: char)
    ensures Worth(c) >= 0 <==> IsDigit(c)
    ensures IsDigit(c) ==> Worth(c) == DigitValue(c) && c == Digit(DigitValue(c))
  {
    if IsDigit(c) {
      var d := (c - '0') as int;
      assert c == '0' + d as char;
    }
  }

  /** One digit more at the end is ten times the value, and the digit. */
  lemma {:induction false} LastPlace(s: string, c: char)
    ensures PlaceValue(s + [c]) == PlaceValue(s) * 10 + Worth(c)
  {
    if s == [] {
      assert s + [c] == [c] && [c][1..] == [];
      assert Pow10(0) == 1;
    } else {
      LastPlace(s[1..], c);
      assert (s + [c])[1..] == s[1..] + [c];
      TenTimes(Worth(s[0]), |s|);
    }
  }

  lemma TenTimes(d: int, k: nat)
    requires k > 0
    ensures d * Pow10(k) == d * Pow10(k - 1) * 10
  {}

  /** `to_string` writes decimal notation. */
  lemma {:induction false} DecimalIsNumeral(n: nat)
    ensures Numeral(Decimal(n), n) && (n > 0 ==> Decimal(n)[0] != '0')
  {
    DigitWorth(Digit(n % 10));
    if n < 10 {
      LastPlace([], Digit(n));
      assert [] + [Digit(n)] == Decimal(n);
    } else {
      DecimalIsNumeral(n / 10);
      LastPlace(Decimal(n / 10), Digit(n % 10));
    }
  }

  lemma {:induction false} ValueNotNegative(s: string)
    requires forall i :: 0 <= i < |s| ==> Worth(s[i]) >= 0
    ensures PlaceValue(s) >= 0
  {
    if s != [] {
      ValueNotNegative(s[1..]);
      Product(Worth(s[0]), Pow10(|s| - 1));
    }
  }

  lemma Product(a: nat, b: nat)
    ensures a * b >= 0
  {}

  lemma {:induction false} PowerPositive(k: nat)
    ensures Pow10(k) >= 1
  {
    if k > 0 { PowerPositive(k - 1); }
  }

  lemma AtLeastOne(a: int, b: int)
    requires a >= 1 && b >= 1
    ensures a * b >= 1
  {}

  /** Without a leading zero the value is not zero. */
  lemma LeadingDigit(s: string)
    requires s != [] && (forall i :: 0 <= i < |s| ==> Worth(s[i]) >= 0) && s[0] != '0'
    ensures PlaceValue(s) >= 1
  {
    ValueNotNegative(s[1..]);
    PowerPositive(|s| - 1);
    AtLeastOne(Worth(s[0]), Pow10(|s| - 1));
  }

  lemma TenSplit(n: int, v: int, w: int)
    requires n == v * 10 + w && 0 <= w < 10 && v >= 0
    ensures n / 10 == v && n % 10 == w
  {}

  /** What is before the last digit is a tenth of the number, in decimal notation too. */
  lemma NumeralFront(p: string, c: char, n: nat)
    requires Numeral(p + [c], n) && p != []
    ensures Numeral(p, n / 10) && n >= 10 && IsDigit(c) && DigitValue(c) == n % 10
  {
    var s := p + [c];
    assert s[0] == p[0] && s[|p|] == c && forall i :: 0 <= i < |p| ==> s[i] == p[i];
    DigitWorth(c);
    LastPlace(p, c);
    LeadingDigit(p);
    TenSplit(n, PlaceValue(p), Worth(c));
  }

  lemma OneDigit(c: char, n: nat)
    requires Numeral([c], n)
    ensures [c] == Decimal(n)
  {
    assert [c][1..] == [];
    assert PlaceValue([c]) == Worth(c) * Pow10(0) + PlaceValue([]);
    assert Worth([c][0]) >= 0;
    DigitWorth(c);
  }

  /** And every number has only one decimal notation. */
  lemma {:induction false} OneNumeral(s: string, n: nat)
    requires Numeral(s, n)
    ensures s == Decimal(n)
    decreases |s|
  {
    var p, c := s[..|s| - 1], s[|s| - 1];
    if p == [] {
      assert s == [c];
      OneDigit(c, n);
    } else {
      assert s == p + [c];
      NumeralFront(p, c, n);
      DigitWorth(c);
      OneNumeral(p, n / 10);
    }
  }

  // ---------- What `stoi` reads ----------

  ghost predicate Blanks(s: string) {
    forall i :: 0 <= i < |s| ==>
      s[i] == ' ' || s[i] == '\t' || s[i] == '\n' || s[i] == 11 as char || s[i] == 12 as char || s[i] == '\r'
  }

  ghost predicate Digits(s: string) {
    s != [] && forall i :: 0 <= i < |s| ==> Worth(s[i]) >= 0
  }

  /** Blanks, a sign or none, digits, and then something that is not a digit. */
  ghost predicate Reads(s: string, blanks: string, sign: string, d: string, rest: string) {
    && s == blanks + (sign + (d + rest)) && Blanks(blanks) && (sign == "" || sign == "-" || sign == "+")
    && Digits(d) && (rest == [] || Worth(rest[0]) < 0)
  }

  lemma {:induction false} BlanksSkipped(blanks: string, t: string)
    requires Blanks(blanks) && (t == [] || !IsBlank(t[0]))
    ensures SkipBlanks(blanks + t) == t
  {
    if blanks == [] {
      assert blanks + t == t;
    } else {
      assert (blanks + t)[1..] == blanks[1..] + t;
      BlanksSkipped(blanks[1..], t);
    }
  }

  lemma {:induction false} DigitsTaken(d: string, rest: string)
    requires (forall i :: 0 <= i < |d| ==> Worth(d[i]) >= 0) && (rest == [] || Worth(rest[0]) < 0)
    ensures DigitPrefix(d + rest) == d
  {
    if d == [] {
      assert d + rest == rest;
      if rest != [] { DigitWorth(rest[0]); }
    } else {
      DigitWorth(d[0]);
      assert (d + rest)[1..] == d[1..] + rest;
      DigitsTaken(d[1..], rest);
    }
  }

  lemma {:induction false} ValueIsPlaceValue(d: string)
    requires AllDigits(d)
    ensures Value(d) == PlaceValue(d)
  {
    if d != [] {
      var p, c := d[..|d| - 1], d[|d| - 1];
      ValueIsPlaceValue(p);
      DigitWorth(c);
      LastPlace(p, c);
      assert d == p + [c];
    }
  }

  lemma SignFirst(sign: string, d: string, rest: string)
    requires (sign == "" || sign == "-" || sign == "+") && Digits(d)
    ensures var t := sign + (d + rest);
      && t != [] && !IsBlank(t[0]) && (t[0] == '-' <==> sign == "-")
      && WithoutSign(t) == d + rest
  {
    DigitWorth(d[0]);
    var t := sign + (d + rest);
    if sign == "" {
      assert t == d + rest;
    } else {
      assert t[0] == sign[0] && t[1..] == d + rest;
    }
  }

  lemma NumberIs(negative: bool, d: string)
    requires Digits(d) && AllDigits(d)
    ensures var v := if negative then -PlaceValue(d) else PlaceValue(d);
      ToNumber(negative, d) == if -0x8000_0000 <= v <= 0x7fff_ffff then Some(v) else None
  {
    ValueIsPlaceValue(d);
  }

  /** `stoi` of such a string is the number its digits stand for, if `int` can hold it. */
  lemma StoiReads(s: string, blanks: string, sign: string, d: string, rest: string)
    requires Reads(s, blanks, sign, d, rest)
    ensures var v := if sign == "-" then -PlaceValue(d) else PlaceValue(d);
      Stoi(s) == if -0x8000_0000 <= v <= 0x7fff_ffff then Some(v) else None
  {
    SignFirst(sign, d, rest);
    BlanksSkipped(blanks, sign + (d + rest));
    DigitsTaken(d, rest);
    NumberIs(sign == "-", d);
  }

  lemma {:induction false} BlanksBefore(s: string) returns (blanks: string)
    ensures Blanks(blanks) && s == blanks + SkipBlanks(s)
  {
    if s != [] && IsBlank(s[0]) {
      var more := BlanksBefore(s[1..]);
      blanks := [s[0]] + more;
    } else {
      blanks := [];
    }
  }

  lemma {:induction false} DigitsBefore(s: string) returns (rest: string)
    ensures s == DigitPrefix(s) + rest && (rest == [] || Worth(rest[0]) < 0)
  {
    if s != [] && IsDigit(s[0]) {
      rest := DigitsBefore(s[1..]);
    } else {
      rest := s;
      if s != [] { DigitWorth(s[0]); }
    }
  }

  /** And it reads no other string. */
  lemma StoiOnly(s: string) returns (blanks: string, sign: string, d: string, rest: string)
    requires Stoi(s).Some?
    ensures Reads(s, blanks, sign, d, rest)
  {
    blanks := BlanksBefore(s);
    var t := SkipBlanks(s);
    sign := if t != [] && (t[0] == '-' || t[0] == '+') then [t[0]] else "";
    var u := t[|sign|..];
    rest := DigitsBefore(u);
    d := DigitPrefix(u);
    assert t == sign + u;
    forall i | 0 <= i < |d| ensures Worth(d[i]) >= 0 { DigitWorth(d[i]); }
  }

  // ---------- Packages ----------

  /** `find(LINE_SEP)`. */
  function FindCrlf(s: string): Option<nat> {
    if |s| < 2 then None
    else if s[0] == '\r' && s[1] == '\n' then Some(0)
    else match FindCrlf(s[1..]) case None => None case Some(p) => Some(p + 1)
  }

  lemma {:induction false} CrlfInside(s: string)
    ensures FindCrlf(s).Some? ==> FindCrlf(s).value + 2 <= |s|
  {
    if |s| >= 2 { CrlfInside(s[1..]); }
  }

  /** `find` gives the first place where the two characters stand. */
  lemma {:induction false} FirstCrlf(s: string)
    ensures FindCrlf(s).None? ==> forall i :: 0 <= i < |s| - 1 ==> !(s[i] == '\r' && s[i + 1] == '\n')
    ensures FindCrlf(s).Some? ==> var p := FindCrlf(s).value;
      p + 1 < |s| && s[p] == '\r' && s[p + 1] == '\n' && forall i :: 0 <= i < p ==> !(s[i] == '\r' && s[i + 1] == '\n')
  {
    if |s| >= 2 {
      FirstCrlf(s[1..]);
      assert forall i :: 1 <= i < |s| ==> s[i] == s[1..][i - 1];
    }
  }

  /** The first CRLF is the one behind the length. */
  lemma {:induction false} CrlfAfterDigits(d: string, rest: string)
    requires AllDigits(d)
    ensures FindCrlf(d + CRLF + rest) == Some(|d|)
  {
    var s := d + CRLF + rest;
    if d != [] {
      assert s[1..] == d[1..] + CRLF + rest;
      CrlfAfterDigits(d[1..], rest);
      assert IsDigit(s[0]);
    }
  }

  lemma {:induction false} NoCrlfInDigits(d: string, p: string)
    requires AllDigits(d) && |p| < |d| + 2 && p <= d + CRLF
    ensures FindCrlf(p) == None
    decreases |d|
  {
    if |p| >= 2 {
      assert p[0] == d[0];
      NoCrlfInDigits(d[1..], p[1..]);
    }
  }

  /** `enLength`. */
  function EnLength(text: string): string {
    Decimal(|text|) + CRLF + text + CRLF
  }

  /** A package, character by character: the length of the text in decimal notation, a line end, the text, a line end. */
  ghost predicate IsPackage(s: string, text: string) {
    exists d :: Numeral(d, |text|) && s == d + ['\r', '\n'] + text + ['\r', '\n']
  }

  /** `enLength` makes the package of a text, and no other string is one. */
  lemma PackageForm(s: string, text: string)
    ensures IsPackage(s, text) <==> s == EnLength(text)
  {
    DecimalIsNumeral(|text|);
    if IsPackage(s, text) {
      var d :| Numeral(d, |text|) && s == d + ['\r', '\n'] + text + ['\r', '\n'];
      OneNumeral(d, |text|);
    }
  }

  /** Conversion to a 32-bit `int`. */
  function ToInt(x: int): (y: int)
    ensures -0x8000_0000 <= y <= 0x7fff_ffff && (x - y) % 0x1_0000_0000 == 0
  {
    (x + 0x8000_0000) % 0x1_0000_0000 - 0x8000_0000
  }

  datatype Parsed = Threw | NotYet | Package(package: string, rest: string)

  /** What `ParseOnePackage` does to a buffer. */
  function ParseOne(buf: string): Parsed {
    match FindCrlf(buf)
    case None => NotYet
    case Some(pos) => CrlfInside(buf); TakeOff(buf, pos, Stoi(buf[..pos]))
  }

  /** With the length read before `pos`. A negative total turns into a `size_t` larger than any string. */
  function TakeOff(buf: string, pos: nat, length: Option<int>): Parsed {
    match length
    case None => Threw
    case Some(len) =>
      var total := ToInt(pos + 4 + len);
      if total < 0 || |buf| < total then NotYet else Package(buf[..total], buf[total..])
  }

  datatype Text = BadLength | NoText | Text(text: string)

  /** `deLength`. A negative length turns into one that reaches to the end. */
  function DeLength(package: string): Text {
    match FindCrlf(package)
    case None => NoText
    case Some(pos) =>
      CrlfInside(package);
      match Stoi(package[..pos])
      case None => BadLength
      case Some(len) =>
        var body := package[pos + 2..];
        Text(if 0 <= len <= |body| then body[..len] else body)
  }

  /** The whole package fits the `int` that holds its length. */
  ghost predicate Fits(text: string) {
    |Decimal(|text|)| + 4 + |text| <= INT_MAX
  }

  lemma FramedAt(text: string, more: string)
    ensures var d := Decimal(|text|); var buf := EnLength(text) + more;
      FindCrlf(buf) == Some(|d|) && buf[..|d|] == d
  {
    var d := Decimal(|text|);
    assert EnLength(text) + more == d + CRLF + (text + CRLF + more);
    CrlfAfterDigits(d, text + CRLF + more);
  }

  lemma CutAt(e: string, more: string)
    ensures (e + more)[..|e|] == e && (e + more)[|e|..] == more
  {}

  /** What is taken off once the length has been read. */
  lemma ParseFramed(buf: string, pos: nat, length: Option<int>)
    requires FindCrlf(buf) == Some(pos) && pos <= |buf| && Stoi(buf[..pos]) == length
    ensures ParseOne(buf) == TakeOff(buf, pos, length)
  {}

  /** A package is taken off a buffer that starts with it exactly if its whole length fits. */
  lemma TakenOff(e: string, more: string, pos: nat, len: nat)
    requires |e| == pos + 4 + len && pos <= 10 && len <= INT_MAX
    ensures TakeOff(e + more, pos, Some(len)) == if pos + 4 + len <= INT_MAX then Package(e, more) else NotYet
  {
    ToIntSmall(pos + 4 + len);
    CutAt(e, more);
  }

  /** A package is delivered, and exactly it, if and only if its length fits; otherwise it throws or waits for ever. */
  lemma DeliveredIff(text: string, more: string)
    ensures ParseOne(EnLength(text) + more) == Package(EnLength(text), more) <==> Fits(text)
    ensures !Fits(text) ==> ParseOne(EnLength(text) + more) == if |text| > INT_MAX then Threw else NotYet
  {
    var buf, d := EnLength(text) + more, Decimal(|text|);
    FramedAt(text, more);
    StoiDecimal(|text|);
    ParseFramed(buf, |d|, Stoi(d));
    if |text| <= INT_MAX {
      DecimalShort(|text|);
      TakenOff(EnLength(text), more, |d|, |text|);
    }
  }

  lemma ToIntSmall(x: int)
    requires 0 <= x <= INT_MAX + 14
    ensures if x <= INT_MAX then ToInt(x) == x else ToInt(x) < 0
  {}

  lemma TextReadBack(text: string)
    requires |text| <= INT_MAX
    ensures DeLength(EnLength(text)) == Text(text)
  {
    FramedAt(text, []);
    assert EnLength(text) + [] == EnLength(text);
    StoiDecimal(|text|);
    var d := Decimal(|text|);
    assert EnLength(text)[|d| + 2..] == text + CRLF;
  }

  lemma LengthThere(d: string, more: string, buf: string, end: nat)
    requires AllDigits(d) && end == |d| + 2 <= |buf| && buf <= d + CRLF + more
    ensures FindCrlf(buf) == Some(|d|) && buf[..|d|] == d
  {
    assert buf == d + CRLF + buf[end..];
    CrlfAfterDigits(d, buf[end..]);
  }

  lemma LengthNotThere(d: string, more: string, buf: string)
    requires AllDigits(d) && |buf| < |d| + 2 && buf <= d + CRLF + more
    ensures FindCrlf(buf) == None
  {
    assert buf <= d + CRLF;
    NoCrlfInDigits(d, buf);
  }

  /** What `deLength` makes of any string with a line end: what is behind the first one, cut to the length if that is
      not negative and not more than there is. */
  lemma AnyTextRead(head: string, body: string)
    requires forall i :: 0 <= i <= |head| - 1 ==> !(head[i] == '\r' && (head + CRLF)[i + 1] == '\n')
    ensures DeLength(head + CRLF + body) ==
      match Stoi(head)
      case None => BadLength
      case Some(len) => Text(if 0 <= len <= |body| then body[..len] else body)
  {
    var package := head + CRLF + body;
    FirstCrlf(package);
    assert package[|head|] == '\r' && package[|head| + 1] == '\n';
    assert forall i :: 0 <= i <= |head| ==> package[i] == (head + CRLF)[i];
    assert package[..|head|] == head && package[|head| + 2..] == body;
  }

  /** The beginning of a package: the length is not there yet, or it is there and is read. */
  lemma PartLength(text: string, buf: string, tail: string)
    requires buf + tail == EnLength(text)
    ensures var d := Decimal(|text|);
      if |buf| < |d| + 2 then FindCrlf(buf) == None else FindCrlf(buf) == Some(|d|) && buf[..|d|] == d
  {
    var d, more := Decimal(|text|), text + CRLF;
    assert EnLength(text) == d + CRLF + more;
    assert buf <= EnLength(text);
    if |buf| < |d| + 2 { LengthNotThere(d, more, buf); } else { LengthThere(d, more, buf, |d| + 2); }
  }

  /** What a part of a package that has arrived is taken for. */
  lemma PartParsed(text: string, buf: string, tail: string)
    requires buf + tail == EnLength(text)
    ensures var d := Decimal(|text|);
      ParseOne(buf) == if |buf| < |d| + 2 then NotYet else TakeOff(buf, |d|, Stoi(d))
  {
    var d := Decimal(|text|);
    PartLength(text, buf, tail);
    if |buf| >= |d| + 2 { ParseFramed(buf, |d|, Stoi(d)); }
  }

  /** Less than the whole length is not taken off. */
  lemma NotTakenOff(buf: string, pos: nat, len: nat)
    requires pos <= 10 && len <= INT_MAX && (|buf| < pos + 4 + len || pos + 4 + len > INT_MAX)
    ensures TakeOff(buf, pos, Some(len)) == NotYet
  {
    ToIntSmall(pos + 4 + len);
  }

  /** A proper prefix of a package is left alone. */
  lemma PartialWaits(text: string, buf: string)
    requires Fits(text) && |buf| < |EnLength(text)| && buf == EnLength(text)[..|buf|]
    ensures ParseOne(buf) == NotYet
  {
    assert buf + EnLength(text)[|buf|..] == EnLength(text);
    PartParsed(text, buf, EnLength(text)[|buf|..]);
    StoiDecimal(|text|);
    DecimalShort(|text|);
    NotTakenOff(buf, |Decimal(|text|)|, |text|);
  }

  /** The beginning of a package that is too long. */
  lemma TooLongPart(text: string, buf: string, tail: string)
    requires !Fits(text) && buf + tail == EnLength(text)
    ensures ParseOne(buf) == NotYet || (ParseOne(buf) == Threw && |text| > INT_MAX)
  {
    PartParsed(text, buf, tail);
    StoiDecimal(|text|);
    if |text| <= INT_MAX {
      DecimalShort(|text|);
      NotTakenOff(buf, |Decimal(|text|)|, |text|);
    }
  }

  /** A package that is too long is never taken off, however much of it and of what follows has arrived. */
  lemma TooLongStays(text: string, buf: string, tail: string, stream: string)
    requires !Fits(text) && buf + tail == EnLength(text) + stream
    ensures ParseOne(buf) == NotYet || (ParseOne(buf) == Threw && |text| > INT_MAX)
  {
    var e := EnLength(text);
    FrontOf(e, stream, buf, tail);
    if |buf| >= |e| {
      DeliveredIff(text, buf[|e|..]);
    } else {
      TooLongPart(text, buf, e[|buf|..]);
    }
  }

  // ---------- Streams ----------

  ghost function Stream(texts: seq<string>): string {
    if texts == [] then "" else EnLength(texts[0]) + Stream(texts[1..])
  }

  ghost predicate AllFit(texts: seq<string>) {
    texts == [] || (Fits(texts[0]) && AllFit(texts[1..]))
  }

  lemma {:induction false} AllFitConcat(a: seq<string>, b: seq<string>)
    ensures AllFit(a + b) <==> AllFit(a) && AllFit(b)
  {
    if a == [] {
      assert a + b == b;
    } else {
      assert (a + b)[1..] == a[1..] + b;
      AllFitConcat(a[1..], b);
    }
  }

  lemma {:induction false} AllFitEach(texts: seq<string>)
    ensures AllFit(texts) <==> forall i :: 0 <= i < |texts| ==> Fits(texts[i])
  {
    if texts != [] {
      AllFitEach(texts[1..]);
      assert forall i :: 0 < i < |texts| ==> texts[i] == texts[1..][i - 1];
    }
  }

  /** `texts` are the requests that were handled. */
  datatype Outcome = Outcome(texts: seq<string>, left: string, threw: bool)

  /** Which texts `deserialize` accepts as requests. */
  type Requests = string -> bool

  lemma Shrinks(buf: string)
    requires ParseOne(buf).Package? && DeLength(ParseOne(buf).package).Text?
    ensures |ParseOne(buf).rest| < |buf|
  {
    CrlfInside(ParseOne(buf).package);
  }

  /** The loop of `calculate`: packages are taken off until none is left, or one does not hold a request. */
  function Drain(buf: string, ok: Requests): Outcome
    decreases |buf|
  {
    match ParseOne(buf)
    case Threw => Outcome([], buf, true)
    case NotYet => Outcome([], buf, false)
    case Package(p, rest) =>
      match DeLength(p)
      case BadLength => Outcome([], rest, true)
      case NoText => Outcome([], rest, false)
      case Text(t) =>
        if !ok(t) then Outcome([], rest, false)
        else
          Shrinks(buf);
          var o := Drain(rest, ok);
          Outcome([t] + o.texts, o.left, o.threw)
  }

  lemma DrainStep(buf: string, ok: Requests)
    requires ParseOne(buf).Package? && DeLength(ParseOne(buf).package).Text?
    ensures var t, rest := DeLength(ParseOne(buf).package).text, ParseOne(buf).rest;
      var o := Drain(rest, ok);
      Drain(buf, ok) == if ok(t) then Outcome([t] + o.texts, o.left, o.threw) else Outcome([], rest, false)
  {}

  /** The texts that are requests, in order. */
  ghost function Handled(texts: seq<string>, ok: Requests): (r: seq<string>)
    ensures |r| <= |texts|
  {
    if texts == [] then [] else (if ok(texts[0]) then [texts[0]] else []) + Handled(texts[1..], ok)
  }

  lemma {:induction false} HandledConcat(a: seq<string>, b: seq<string>, ok: Requests)
    ensures Handled(a + b, ok) == Handled(a, ok) + Handled(b, ok)
  {
    if a == [] {
      assert a + b == b;
    } else {
      assert (a + b)[1..] == a[1..] + b;
      HandledConcat(a[1..], b, ok);
      Assoc(if ok(a[0]) then [a[0]] else [], Handled(a[1..], ok), Handled(b, ok));
    }
  }

  /** All texts are handled exactly when all are requests. */
  lemma {:induction false} HandledAll(texts: seq<string>, ok: Requests)
    ensures Handled(texts, ok) == texts <==> forall i :: 0 <= i < |texts| ==> ok(texts[i])
  {
    if texts != [] {
      HandledAll(texts[1..], ok);
      if ok(texts[0]) {
        assert Handled(texts, ok)[1..] == Handled(texts[1..], ok);
        assert texts == [texts[0]] + texts[1..];
        assert forall i :: 0 < i < |texts| ==> texts[i] == texts[1..][i - 1];
      }
    }
  }

  /** The leftover is a proper prefix of the next package, or nothing. */
  ghost predicate Leftover(left: string, texts: seq<string>) {
    if texts == [] then left == "" else |left| < |EnLength(texts[0])| && left == EnLength(texts[0])[..|left|]
  }

  /** Why the loop stopped behind the first `k` texts: no whole package, the last text no request, or a package too
      long. */
  ghost predicate StoppedAt(left: string, texts: seq<string>, k: nat, ok: Requests)
    requires k <= |texts|
  {
    Leftover(left, texts[k..]) || (k > 0 && !ok(texts[k - 1])) || (k < |texts| && !Fits(texts[k]))
  }

  /** What a run over a stream has done: `k` packages taken off, their requests handled, the rest left. */
  ghost predicate Accounts(o: Outcome, texts: seq<string>, k: nat, ok: Requests) {
    && k <= |texts| && AllFit(texts[..k]) && o.texts == Handled(texts[..k], ok)
    && (o.threw ==> k < |texts| && !Fits(texts[k]))
  }

  /** The same, with all bytes that have arrived accounted for and a reason why the run has stopped. */
  ghost predicate Fed(o: Outcome, texts: seq<string>, k: nat, arrived: string, ok: Requests) {
    && Accounts(o, texts, k, ok)
    && (!o.threw ==> arrived == Stream(texts[..k]) + o.left && StoppedAt(o.left, texts, k, ok))
  }

  /** A whole package at the front is taken off. */
  lemma DrainOne(text: string, rest: string, ok: Requests)
    requires Fits(text)
    ensures var o := Drain(rest, ok);
      Drain(EnLength(text) + rest, ok) ==
        if ok(text) then Outcome([text] + o.texts, o.left, o.threw) else Outcome([], rest, false)
  {
    DeliveredIff(text, rest);
    TextReadBack(text);
    DrainStep(EnLength(text) + rest, ok);
  }

  lemma FrontOf(e: string, stream: string, buf: string, tail: string)
    requires buf + tail == e + stream
    ensures |buf| < |e| ==> buf == e[..|buf|]
    ensures |buf| >= |e| ==> buf == e + buf[|e|..] && buf[|e|..] + tail == stream
  {
    if |buf| >= |e| {
      assert (e + stream)[..|e|] == (buf + tail)[..|e|] == buf[..|e|];
      assert (e + stream)[|e|..] == (buf + tail)[|e|..] == buf[|e|..] + tail;
    } else {
      assert (e + stream)[..|buf|] == (buf + tail)[..|buf|];
    }
  }

  /** Whatever comes after it, the beginning of a stream of packages is taken off up to the first reason to stop. */
  lemma {:induction false} DrainPrefix(texts: seq<string>, buf: string, tail: string, ok: Requests) returns (k: nat)
    requires buf + tail == Stream(texts)
    ensures var o := Drain(buf, ok);
      Accounts(o, texts, k, ok) && buf == Stream(texts[..k]) + o.left && StoppedAt(o.left, texts, k, ok)
    decreases |texts|
  {
    if texts == [] {
      k := 0;
    } else if !Fits(texts[0]) {
      TooLongStays(texts[0], buf, tail, Stream(texts[1..]));
      k := 0;
    } else {
      var e := EnLength(texts[0]);
      FrontOf(e, Stream(texts[1..]), buf, tail);
      if |buf| < |e| {
        PartialWaits(texts[0], buf);
        k := 0;
      } else {
        var rest := buf[|e|..];
        DrainOne(texts[0], rest, ok);
        if ok(texts[0]) {
          var j := DrainPrefix(texts[1..], rest, tail, ok);
          OneMore(texts, j, ok, Drain(rest, ok));
          k := j + 1;
        } else {
          OneStop(texts, ok);
          k := 1;
        }
      }
    }
  }

  lemma OneStop(texts: seq<string>, ok: Requests)
    requires texts != [] && Fits(texts[0]) && !ok(texts[0])
    ensures AllFit(texts[..1]) && Handled(texts[..1], ok) == [] && Stream(texts[..1]) == EnLength(texts[0])
  {
    assert texts[..1][1..] == [];
    assert EnLength(texts[0]) + "" == EnLength(texts[0]);
  }

  lemma OneMore(texts: seq<string>, j: nat, ok: Requests, o: Outcome)
    requires texts != [] && Fits(texts[0]) && ok(texts[0]) && Accounts(o, texts[1..], j, ok)
    requires StoppedAt(o.left, texts[1..], j, ok)
    ensures var o' := Outcome([texts[0]] + o.texts, o.left, o.threw);
      && Accounts(o', texts, j + 1, ok) && StoppedAt(o.left, texts, j + 1, ok)
      && Stream(texts[..j + 1]) + o.left == EnLength(texts[0]) + (Stream(texts[1..][..j]) + o.left)
  {
    FirstMore(texts, j);
    Assoc(EnLength(texts[0]), Stream(texts[1..][..j]), o.left);
    assert Handled(texts[..j + 1], ok) == [texts[0]] + Handled(texts[..j + 1][1..], ok);
  }

  lemma FirstMore(texts: seq<string>, j: nat)
    requires j < |texts|
    ensures texts[..j + 1] == [texts[0]] + texts[1..][..j] && texts[j + 1..] == texts[1..][j..]
    ensures texts[..j + 1][1..] == texts[1..][..j]
    ensures Stream(texts[..j + 1]) == EnLength(texts[0]) + Stream(texts[1..][..j])
  {
    assert texts[..j + 1][1..] == texts[1..][..j];
  }

  ghost function Concat(chunks: seq<string>): string {
    if chunks == [] then "" else chunks[0] + Concat(chunks[1..])
  }

  /** A chunk is appended to the buffer, and the buffer is drained. */
  ghost function FeedOne(o: Outcome, chunk: string, ok: Requests): Outcome {
    var d := Drain(o.left + chunk, ok);
    Outcome(o.texts + d.texts, d.left, d.threw)
  }

  /** Chunks arrive one by one, until an exception. */
  ghost function Feed(o: Outcome, chunks: seq<string>, ok: Requests): Outcome
    decreases |chunks|
  {
    if chunks == [] || o.threw then o else Feed(FeedOne(o, chunks[0], ok), chunks[1..], ok)
  }

  lemma {:induction false} StreamConcat(a: seq<string>, b: seq<string>)
    ensures Stream(a + b) == Stream(a) + Stream(b)
  {
    if a == [] {
      assert a + b == b;
    } else {
      assert (a + b)[1..] == a[1..] + b;
      StreamConcat(a[1..], b);
    }
  }

  /**
   Every fragmentation of the beginning of a stream: the packages taken off are the first
   ones, their requests have been handled in order, the rest is in the buffer, and the run
   has stopped for one of the three reasons.
   */
  lemma {:induction false} FeedPrefix(texts: seq<string>, o: Outcome, k: nat, arrived: string, chunks: seq<string>,
                                      tail: string, ok: Requests)
    returns (k': nat)
    requires Fed(o, texts, k, arrived, ok) && arrived + Concat(chunks) + tail == Stream(texts)
    ensures Fed(Feed(o, chunks, ok), texts, k', arrived + Concat(chunks), ok)
    decreases |chunks|
  {
    if chunks == [] {
      assert arrived + Concat(chunks) == arrived;
      k' := k;
    } else if o.threw {
      k' := k;
    } else {
      var more := Concat(chunks[1..]);
      Assoc(arrived, chunks[0], more);
      var k1 := FeedOnce(texts, o, k, arrived, chunks[0], more + tail, ok);
      k' := FeedPrefix(texts, FeedOne(o, chunks[0], ok), k1, arrived + chunks[0], chunks[1..], tail, ok);
    }
  }

  /** One more chunk. */
  lemma FeedOnce(texts: seq<string>, o: Outcome, k: nat, arrived: string, chunk: string, tail: string, ok: Requests)
    returns (k': nat)
    requires Fed(o, texts, k, arrived, ok) && !o.threw && arrived + chunk + tail == Stream(texts)
    ensures Fed(FeedOne(o, chunk, ok), texts, k', arrived + chunk, ok)
  {
    StillToCome(texts, k, o.left, arrived, chunk, tail);
    var j := DrainPrefix(texts[k..], o.left + chunk, tail, ok);
    k' := k + j;
    FeedTwice(texts, k, j, k', o, FeedOne(o, chunk, ok), Drain(o.left + chunk, ok), arrived + chunk, ok);
  }

  lemma StillToCome(texts: seq<string>, k: nat, left: string, arrived: string, chunk: string, tail: string)
    requires k <= |texts| && arrived == Stream(texts[..k]) + left && arrived + chunk + tail == Stream(texts)
    ensures left + chunk + tail == Stream(texts[k..]) && arrived + chunk == Stream(texts[..k]) + (left + chunk)
  {
    Assoc(Stream(texts[..k]), left, chunk);
    Assoc(Stream(texts[..k]) + left, chunk, tail);
    Remaining(texts, k, left, chunk, tail);
  }

  /** Two stretches of a run, one after the other. */
  lemma FeedTwice(texts: seq<string>, i: nat, j: nat, k: nat, a: Outcome, ab: Outcome, b: Outcome, arrived: string,
                  ok: Requests)
    requires Accounts(a, texts, i, ok) && Accounts(b, texts[i..], j, ok) && StoppedAt(b.left, texts[i..], j, ok)
    requires StoppedAt(a.left, texts, i, ok) && arrived == Stream(texts[..i]) + (Stream(texts[i..][..j]) + b.left)
    requires ab == Outcome(a.texts + b.texts, b.left, b.threw) && k == i + j
    ensures Fed(ab, texts, k, arrived, ok)
  {
    TwoPrefixes(texts, i, j);
    HandledConcat(texts[..i], texts[i..][..j], ok);
    AllFitConcat(texts[..i], texts[i..][..j]);
    Assoc(Stream(texts[..i]), Stream(texts[i..][..j]), b.left);
  }

  lemma Remaining(texts: seq<string>, i: nat, left: string, more: string, tail: string)
    requires i <= |texts| && Stream(texts[..i]) + left + (more + tail) == Stream(texts)
    ensures left + more + tail == Stream(texts[i..])
  {
    var a := Stream(texts[..i]);
    assert texts == texts[..i] + texts[i..];
    StreamConcat(texts[..i], texts[i..]);
    Assoc(left, more, tail);
    Assoc(a, left, more + tail);
    Cancel(a, left + more + tail, Stream(texts[i..]));
  }

  lemma TwoPrefixes(texts: seq<string>, i: nat, j: nat)
    requires i + j <= |texts|
    ensures texts[..i + j] == texts[..i] + texts[i..][..j] && texts[i + j..] == texts[i..][j..]
    ensures Stream(texts[..i + j]) == Stream(texts[..i]) + Stream(texts[i..][..j])
  {
    assert texts[..i + j] == texts[..i] + texts[i..][..j];
    StreamConcat(texts[..i], texts[i..][..j]);
  }

  lemma Assoc<T>(a: seq<T>, b: seq<T>, c: seq<T>)
    ensures a + (b + c) == (a + b) + c
  {}

  lemma Cancel(a: string, b: string, c: string)
    requires a + b == a + c
    ensures b == c
  {
    assert (a + b)[|a|..] == b && (a + c)[|a|..] == c;
  }

  const START: Outcome := Outcome([], "", false)

  /**
   However a stream of packages is cut up: exactly its texts are handled, in order, and
   nothing is left, if and only if every package fits and every text is a request.
   */
  lemma Fragmentation(texts: seq<string>, chunks: seq<string>, ok: Requests)
    requires Concat(chunks) == Stream(texts)
    ensures Feed(START, chunks, ok) == Outcome(texts, "", false) <==>
      forall i :: 0 <= i < |texts| ==> Fits(texts[i]) && ok(texts[i])
  {
    assert "" + Concat(chunks) == Concat(chunks) && Concat(chunks) + "" == Concat(chunks);
    var k := FeedPrefix(texts, START, 0, "", chunks, "", ok);
    HandledAll(texts, ok);
    AllFitEach(texts);
    if AllFit(texts) && Handled(texts, ok) == texts {
      NothingThrown(Feed(START, chunks, ok), texts, k, ok);
      AllTaken(texts, k, Feed(START, chunks, ok).left, ok);
    }
    AllAccounted(Feed(START, chunks, ok), texts, k, ok);
  }

  /** A run that has handled all texts has taken off all packages. */
  lemma AllAccounted(o: Outcome, texts: seq<string>, k: nat, ok: Requests)
    requires Accounts(o, texts, k, ok)
    ensures o.texts == texts || k == |texts| ==> texts[..k] == texts && AllFit(texts) && o.texts == Handled(texts, ok)
  {
    if o.texts == texts || k == |texts| { assert texts[..k] == texts; }
  }

  lemma NothingThrown(o: Outcome, texts: seq<string>, k: nat, ok: Requests)
    requires Accounts(o, texts, k, ok) && AllFit(texts)
    ensures !o.threw
  {
    AllFitEach(texts);
  }

  /** With nothing to stop it, a run that has seen the whole stream has taken off all of it. */
  lemma AllTaken(texts: seq<string>, k: nat, left: string, ok: Requests)
    requires k <= |texts| && Stream(texts[..k]) + left == Stream(texts)
    requires forall i :: 0 <= i < |texts| ==> Fits(texts[i]) && ok(texts[i])
    requires StoppedAt(left, texts, k, ok)
    ensures k == |texts| && left == ""
  {
    assert Stream(texts[..k]) + left + ("" + "") == Stream(texts);
    Remaining(texts, k, left, "", "");
    assert left + "" + "" == left;
  }

  /** An outcome after some texts were handled already. */
  function Then(texts: seq<string>, o: Outcome): Outcome {
    Outcome(texts + o.texts, o.left, o.threw)
  }

  lemma ThenAll(o: Outcome)
    ensures Then([], o) == o
  {
    assert [] + o.texts == o.texts;
  }

  lemma ThenNothing(texts: seq<string>, left: string, threw: bool)
    ensures Then(texts, Outcome([], left, threw)) == Outcome(texts, left, threw)
  {
    assert texts + [] == texts;
  }

  lemma ThenMore(texts: seq<string>, text: string, o: Outcome)
    ensures Then(texts, Then([text], o)) == Then(texts + [text], o)
  {
    assert texts + ([text] + o.texts) == texts + [text] + o.texts;
  }

  class Connection {
    var inbuffer: string

    constructor ()
      ensures inbuffer == ""
    {
      inbuffer := "";
    }

    /** `ParseOnePackage`: takes one package off the buffer, if there is a whole one. */
    method ParseOnePackage() returns (found: bool, package: string, threw: bool)
      modifies this
      ensures match ParseOne(old(inbuffer))
        case Threw => threw && inbuffer == old(inbuffer)
        case NotYet => !threw && !found && inbuffer == old(inbuffer)
        case Package(p, rest) => !threw && found && package == p && inbuffer == rest
    {
      found, package, threw := false, "", false;
      var pos := FindCrlf(inbuffer);
      if pos.None? {
        return;
      }
      CrlfInside(inbuffer);
      var len := Stoi(inbuffer[..pos.value]);
      if len.None? {
        threw := true;
        return;
      }
      var total := ToInt(pos.value + 4 + len.value);
      if total < 0 || |inbuffer| < total {
        return;
      }
      found, package := true, inbuffer[..total];
      inbuffer := inbuffer[total..];
    }

    /** One turn of the loop of `calculate`: the text of the next package if it is a request, or the reason to stop. */
    method TakeRequest(ok: Requests) returns (text: Option<string>, threw: bool)
      modifies this
      ensures text.None? ==> Drain(old(inbuffer), ok) == Outcome([], inbuffer, threw)
      ensures text.Some? ==> !threw && |inbuffer| < |old(inbuffer)|
      ensures text.Some? ==> Drain(old(inbuffer), ok) == Then([text.value], Drain(inbuffer, ok))
    {
      ghost var buf := inbuffer;
      var found, package, error := ParseOnePackage();
      if error || !found {
        return None, error;
      }
      var read := DeLength(package);
      if !read.Text? {
        return None, read.BadLength?;
      }
      if !ok(read.text) {
        return None, false;
      }
      Shrinks(buf);
      return Some(read.text), false;
    }

    /** A chunk arrives: it is appended, and `calculate` handles packages as long as there are any that hold a
        request. */
    method Receive(chunk: string, ok: Requests) returns (texts: seq<string>, threw: bool)
      modifies this
      ensures Outcome(texts, inbuffer, threw) == Drain(old(inbuffer) + chunk, ok)
    {
      inbuffer := inbuffer + chunk;
      texts, threw := [], false;
      ThenAll(Drain(inbuffer, ok));
      while true
        invariant !threw && Drain(old(inbuffer) + chunk, ok) == Then(texts, Drain(inbuffer, ok))
        decreases |inbuffer|
      {
        var text, error := TakeRequest(ok);
        if text.None? {
          ThenNothing(texts, inbuffer, error);
          threw := error;
          return;
        }
        ThenMore(texts, text.value, Drain(inbuffer, ok));
        texts := texts + [text.value];
      }
    }

    /** A run of the connection over the chunks that arrive. */
    method ReceiveAll(chunks: seq<string>, ok: Requests) returns (texts: seq<string>, threw: bool)
      modifies this
      ensures Outcome(texts, inbuffer, threw) == Feed(Outcome([], old(inbuffer), false), chunks, ok)
    {
      texts, threw := [], false;
      for i := 0 to |chunks|
        invariant !threw
        invariant Feed(Outcome([], old(inbuffer), false), chunks, ok) == Feed(Outcome(texts, inbuffer, threw), chunks[i..], ok)
      {
        FeedStep(Outcome(texts, inbuffer, threw), chunks, i, ok);
        var more, error := Receive(chunks[i], ok);
        texts := texts + more;
        if error {
          threw := true;
          return;
        }
      }
    }
  }

  lemma FeedStep(o: Outcome, chunks: seq<string>, i: nat, ok: Requests)
    requires i < |chunks| && !o.threw
    ensures Feed(o, chunks[i..], ok) == Feed(FeedOne(o, chunks[i], ok), chunks[i + 1..], ok)
  {
    assert chunks[i..][1..] == chunks[i + 1..];
  }
}
