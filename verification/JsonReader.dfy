/**
 A reader of JSON texts after RFC 8259 (sections 2 to 7), without white space between tokens, and the round trip of the
 canonical printer: `ReadUndoesPrint` says that what was printed reads back as the same value up to key order.
 */
module JsonReader {
  import opened CanonicalJson
  import opened Sequences
  import opened Wrappers

  const SLASH: CodeUnit := 0x2F
  const CAPITAL_E: CodeUnit := 0x45

  // ---- String literals -------------------------------------------------------------------------------------

  function HexValue(u: CodeUnit): Option<nat> {
    if 0x30 <= u <= 0x39 then Some(u - 0x30)
    else if 0x61 <= u <= 0x66 then Some(u - 0x61 + 10)
    else if 0x41 <= u <= 0x46 then Some(u - 0x41 + 10)
    else None
  }

  function FourHex(text: Text): Option<CodeUnit>
    requires |text| == 4
  {
    var a, b, c, d := HexValue(text[0]), HexValue(text[1]), HexValue(text[2]), HexValue(text[3]);
    if a.Some? && b.Some? && c.Some? && d.Some? && a.value < 16 && b.value < 16 && c.value < 16 && d.value < 16
    then Some(((a.value * 16 + b.value) * 16 + c.value) * 16 + d.value)
    else None
  }

  /** What a letter behind a backslash stands for. */
  function Unescaped(u: CodeUnit): Option<CodeUnit> {
    if u in [QUOTE, BACKSLASH, SLASH] then Some(u)
    else if u == 0x62 then Some(0x08)
    else if u == 0x66 then Some(0x0C)
    else if u == 0x6E then Some(0x0A)
    else if u == 0x72 then Some(0x0D)
    else if u == 0x74 then Some(0x09)
    else None
  }

  function InFront(u: Option<CodeUnit>, r: Option<(Text, Text)>): Option<(Text, Text)> {
    if u.None? || r.None? then None else Some(([u.value] + r.value.0, r.value.1))
  }

  /** The rest of a string literal after its opening quote: the string, and the text behind the closing quote. */
  function ScanString(text: Text): (r: Option<(Text, Text)>)
    ensures r.Some? ==> |r.value.1| < |text|
    decreases |text|
  {
    if text == [] || text[0] < 0x20 then None
    else if text[0] == QUOTE then Some(([], text[1..]))
    else if text[0] != BACKSLASH then InFront(Some(text[0]), ScanString(text[1..]))
    else if |text| > 1 && text[1] != LETTER_U then InFront(Unescaped(text[1]), ScanString(text[2..]))
    else if |text| > 5 then InFront(FourHex(text[2..6]), ScanString(text[6..]))
    else None
  }

  // ---- Numbers ---------------------------------------------------------------------------------------------

  function DigitRun(text: Text): (n: nat)
    ensures n <= |text| && forall i :: 0 <= i < n ==> IsDigit(text[i])
    ensures n < |text| ==> !IsDigit(text[n])
  {
    if text != [] && IsDigit(text[0]) then 1 + DigitRun(text[1..]) else 0
  }

  function DigitValue(u: CodeUnit): nat
    requires IsDigit(u)
  {
    var n: int := u;
    n - 0x30
  }

  function Decimal(ds: Text): nat
    requires forall i :: 0 <= i < |ds| ==> IsDigit(ds[i])
  {
    if ds == [] then 0 else 10 * Decimal(ds[..|ds| - 1]) + DigitValue(ds[|ds| - 1])
  }

  /** The number `n` times ten to the power of `e`. */
  function NumberOf(negative: bool, n: nat, e: int): Json {
    if n == 0 then (if negative then NegativeZero else Zero) else Num(negative, WithoutZeros(n), |Digits(n)| + e)
  }

  function Scaled(negative: bool, places: nat): int {
    if negative then 0 - places else places
  }

  /** The rest of a number after its digits, of which `places` stand behind the point. */
  function ScanExponent(negative: bool, n: nat, places: nat, text: Text): (r: Option<(Json, Text)>)
    ensures r.Some? ==> |r.value.1| <= |text|
  {
    if text == [] || text[0] !in [LETTER_E, CAPITAL_E] then Some((NumberOf(negative, n, Scaled(true, places)), text))
    else
      var signed := |text| > 1 && text[1] in [PLUS, MINUS];
      var digits := if signed then text[2..] else text[1..];
      var e := DigitRun(digits);
      if e == 0 then None
      else
        var size := Decimal(digits[..e]);
        Some((NumberOf(negative, n, Scaled(signed && text[1] == MINUS, size) - places), digits[e..]))
  }

  function ScanUnsigned(negative: bool, text: Text): (r: Option<(Json, Text)>)
    ensures r.Some? ==> |r.value.1| < |text|
  {
    var i := DigitRun(text);
    if i == 0 || (i > 1 && text[0] == DIGIT_ZERO) then None
    else if i < |text| && text[i] == DOT then
      var places := DigitRun(text[i + 1..]);
      if places == 0 then None
      else ScanExponent(negative, Decimal(text[..i] + text[i + 1..][..places]), places, text[i + 1..][places..])
    else ScanExponent(negative, Decimal(text[..i]), 0, text[i..])
  }

  function ScanNumber(text: Text): (r: Option<(Json, Text)>)
    ensures r.Some? ==> |r.value.1| < |text|
  {
    if text != [] && text[0] == MINUS then ScanUnsigned(true, text[1..]) else ScanUnsigned(false, text)
  }

  // ---- Values ----------------------------------------------------------------------------------------------

  function ScanValue(text: Text): (r: Option<(Json, Text)>)
    ensures r.Some? ==> |r.value.1| < |text|
    decreases |text|, 0
  {
    if text == [] then None
    else if text[0] == QUOTE then
      match ScanString(text[1..])
      case None => None
      case Some(p) => Some((Str(p.0), p.1))
    else if text[0] == OPEN_BRACKET then
      if |text| > 1 && text[1] == CLOSE_BRACKET then Some((Arr([]), text[2..]))
      else
        match ScanItems(text[1..])
        case None => None
        case Some(p) => Some((Arr(p.0), p.1))
    else if text[0] == OPEN_BRACE then
      if |text| > 1 && text[1] == CLOSE_BRACE then Some((Obj([]), text[2..]))
      else
        match ScanFields(text[1..])
        case None => None
        case Some(p) => Some((Obj(p.0), p.1))
    else if NULL_TEXT <= text then Some((Null, text[4..]))
    else if TRUE_TEXT <= text then Some((Bool(true), text[4..]))
    else if FALSE_TEXT <= text then Some((Bool(false), text[5..]))
    else ScanNumber(text)
  }

  /** The elements of an array, at least one, up to and with the closing bracket. */
  function ScanItems(text: Text): (r: Option<(seq<Json>, Text)>)
    ensures r.Some? ==> |r.value.1| < |text|
    decreases |text|, 1
  {
    match ScanValue(text)
    case None => None
    case Some(first) =>
      if first.1 == [] then None
      else if first.1[0] == CLOSE_BRACKET then Some(([first.0], first.1[1..]))
      else if first.1[0] != COMMA then None
      else
        match ScanItems(first.1[1..])
        case None => None
        case Some(others) => Some(([first.0] + others.0, others.1))
  }

  /** The members of an object, at least one, up to and with the closing brace. */
  function ScanFields(text: Text): (r: Option<(seq<Field>, Text)>)
    ensures r.Some? ==> |r.value.1| < |text|
    decreases |text|, 1
  {
    match ScanField(text)
    case None => None
    case Some(first) =>
      if first.1 == [] then None
      else if first.1[0] == CLOSE_BRACE then Some(([first.0], first.1[1..]))
      else if first.1[0] != COMMA then None
      else
        match ScanFields(first.1[1..])
        case None => None
        case Some(others) => Some(([first.0] + others.0, others.1))
  }

  function ScanField(text: Text): (r: Option<(Field, Text)>)
    ensures r.Some? ==> |r.value.1| < |text|
    decreases |text|, 0
  {
    if text == [] || text[0] != QUOTE then None
    else
      match ScanString(text[1..])
      case None => None
      case Some(key) =>
        if key.1 == [] || key.1[0] != COLON then None
        else
          match ScanValue(key.1[1..])
          case None => None
          case Some(p) => Some((Field(key.0, p.0), p.1))
  }

  // ---- Strings read back -----------------------------------------------------------------------------------

  lemma HexDigitsRead(u: CodeUnit)
    ensures FourHex(Hex4(u)) == Some(u)
  {
    assert u / 16 / 16 / 16 < 16;
    var h := Hex4(u);
    assert forall d :: 0 <= d < 16 ==> HexValue(HexDigit(d)) == Some(d);
    assert (((u / 16 / 16 / 16) * 16 + u / 16 / 16 % 16) * 16 + u / 16 % 16) * 16 + u % 16 == u;
  }

  lemma ScanUnit(u: CodeUnit, rest: Text)
    ensures ScanString(EscapeUnit(u) + rest) == InFront(Some(u), ScanString(rest))
  {
    var p := EscapeUnit(u);
    assert (p + rest)[..|p|] == p && (p + rest)[|p|..] == rest;
    assert forall i :: 0 <= i < |p| ==> (p + rest)[i] == p[i];
    if |p| == 6 {
      assert (p + rest)[2..6] == Hex4(u);
      HexDigitsRead(u);
    }
  }

  lemma ScanPair(s: Text, rest: Text)
    requires StartsWithPair(s)
    ensures ScanString(s[..2] + rest) == InFront(Some(s[0]), InFront(Some(s[1]), ScanString(rest)))
  {
    assert (s[..2] + rest)[1..] == [s[1]] + rest;
    assert ([s[1]] + rest)[1..] == rest;
  }

  lemma ScanPiece(s: Text, rest: Text, tail: Text, behind: Text)
    requires s != [] && ScanString(rest) == Some((tail, behind))
    ensures ScanString(Piece(s) + rest) == Some((s[..Taken(s)] + tail, behind))
  {
    if StartsWithPair(s) {
      ScanPair(s, rest);
      assert [s[0]] + ([s[1]] + tail) == s[..2] + tail;
    } else {
      ScanUnit(s[0], rest);
      assert [s[0]] + tail == s[..1] + tail;
    }
  }

  /** A string literal reads as the string, whatever follows it. */
  lemma {:induction false} ScanLiteral(s: Text, rest: Text)
    ensures ScanString(Literal(s, rest)) == Some((s, rest))
    decreases |s|
  {
    LiteralStep(s, rest);
    if s == [] {
      assert Literal(s, rest)[1..] == rest;
    } else {
      var tail := s[Taken(s)..];
      ScanLiteral(tail, rest);
      ScanPiece(s, Literal(tail, rest), tail, rest);
      TakenApart(s);
    }
  }

  lemma QuoteIsLiteral(s: Text, rest: Text)
    ensures Quote(s) + rest == [QUOTE] + Literal(s, rest)
    ensures (Quote(s) + rest)[0] == QUOTE && (Quote(s) + rest)[1..] == Literal(s, rest)
  {
    RegroupText([QUOTE], Escape(s), [QUOTE], rest);
  }

  // ---- Numbers read back -----------------------------------------------------------------------------------

  predicate AllDigits(ds: Text) {
    forall i :: 0 <= i < |ds| ==> IsDigit(ds[i])
  }

  lemma {:induction false} DigitRunStops(ds: Text, rest: Text)
    requires AllDigits(ds) && (rest == [] || !IsDigit(rest[0]))
    ensures DigitRun(ds + rest) == |ds| && (ds + rest)[..|ds|] == ds && (ds + rest)[|ds|..] == rest
  {
    if ds == [] {
      assert ds + rest == rest;
    } else {
      assert (ds + rest)[1..] == ds[1..] + rest;
      DigitRunStops(ds[1..], rest);
    }
  }

  lemma {:induction false} DecimalUndoesDigits(n: nat)
    ensures Decimal(Digits(n)) == n
  {
    if n < 10 {
      assert Digits(n)[..0] == [];
    } else {
      DecimalUndoesDigits(n / 10);
      assert Digits(n)[..|Digits(n)| - 1] == Digits(n / 10);
    }
  }

  lemma {:induction false} DecimalOfZeros(k: nat)
    ensures Decimal(Zeros(k)) == 0
  {
    if k > 0 {
      assert Zeros(k)[..k - 1] == Zeros(k - 1);
      DecimalOfZeros(k - 1);
    }
  }

  lemma {:induction false} DecimalIgnoresLeadingZeros(k: nat, ds: Text)
    requires AllDigits(ds)
    ensures AllDigits(Zeros(k) + ds) && Decimal(Zeros(k) + ds) == Decimal(ds)
  {
    if ds == [] {
      assert Zeros(k) + ds == Zeros(k);
      DecimalOfZeros(k);
    } else {
      DecimalIgnoresLeadingZeros(k, ds[..|ds| - 1]);
      assert (Zeros(k) + ds)[..k + |ds| - 1] == Zeros(k) + ds[..|ds| - 1];
    }
  }

  lemma TenTimes(n: nat)
    requires 0 < n
    ensures Digits(10 * n) == Digits(n) + [DIGIT_ZERO]
  {
    assert 10 * n / 10 == n && 10 * n % 10 == 0;
  }

  lemma ZeroBehind(ds: Text)
    requires AllDigits(ds)
    ensures AllDigits(ds + [DIGIT_ZERO]) && Decimal(ds + [DIGIT_ZERO]) == 10 * Decimal(ds)
  {
    assert (ds + [DIGIT_ZERO])[..|ds|] == ds;
  }

  lemma OneZeroMore(ds: Text, k: nat)
    requires 0 < k
    ensures ds + Zeros(k) == ds + Zeros(k - 1) + [DIGIT_ZERO]
  {
  }

  lemma {:induction false} DigitsOfTrailingZeros(n: nat, k: nat)
    requires 0 < n
    ensures var ds := Digits(n) + Zeros(k);
            AllDigits(ds) && 0 < Decimal(ds) && Digits(Decimal(ds)) == ds
  {
    if k == 0 {
      assert Digits(n) + Zeros(0) == Digits(n);
      DecimalUndoesDigits(n);
    } else {
      var ds := Digits(n) + Zeros(k - 1);
      DigitsOfTrailingZeros(n, k - 1);
      ZeroBehind(ds);
      TenTimes(Decimal(ds));
      OneZeroMore(Digits(n), k);
    }
  }

  /** The digits of a number without trailing zeros, with zeros behind them, give the number back. */
  lemma ZerosAreStripped(m: nat, k: nat)
    requires m % 10 != 0
    ensures var ds := Digits(m) + Zeros(k);
            AllDigits(ds) && 0 < Decimal(ds) && WithoutZeros(Decimal(ds)) == m && |Digits(Decimal(ds))| == |ds|
  {
    DigitsOfTrailingZeros(m, k);
    var n := Decimal(Digits(m) + Zeros(k));
    var w := WithoutZeros(n);
    TrailingZeros(Digits(m), k, Digits(w), |Digits(n)| - |Digits(w)|);
    DigitsInjective(m, w);
  }

  lemma PlainNumberOf(negative: bool, m: nat, e: int)
    requires m % 10 != 0
    ensures NumberOf(negative, m, e) == Num(negative, m, |Digits(m)| + e)
  {
    ZerosAreStripped(m, 0);
    assert Digits(m) + Zeros(0) == Digits(m);
    DecimalUndoesDigits(m);
  }

  /** What stands behind a number: no digit, no point and no exponent. */
  predicate EndsNumber(rest: Text) {
    rest == [] || (!IsDigit(rest[0]) && rest[0] !in [DOT, LETTER_E, CAPITAL_E])
  }

  lemma ScanWhole(negative: bool, ds: Text, rest: Text)
    requires AllDigits(ds) && ds != [] && ds[0] != DIGIT_ZERO && EndsNumber(rest)
    ensures ScanUnsigned(negative, ds + rest) == Some((NumberOf(negative, Decimal(ds), 0), rest))
  {
    DigitRunStops(ds, rest);
    assert rest != [] ==> (ds + rest)[|ds|] == rest[0];
  }

  lemma ScanAtPoint(negative: bool, text: Text, i: nat, places: nat)
    requires 0 < i < |text| && DigitRun(text) == i && text[i] == DOT && (i > 1 ==> text[0] != DIGIT_ZERO)
    requires 0 < places && DigitRun(text[i + 1..]) == places
    ensures AllDigits(text[..i] + text[i + 1..][..places])
    ensures ScanUnsigned(negative, text)
            == ScanExponent(negative, Decimal(text[..i] + text[i + 1..][..places]), places, text[i + 1..][places..])
  {
  }

  lemma ScanFraction(negative: bool, whole: Text, places: Text, rest: Text)
    requires AllDigits(whole) && whole != [] && (whole == [DIGIT_ZERO] || whole[0] != DIGIT_ZERO)
    requires AllDigits(places) && places != [] && (rest == [] || !IsDigit(rest[0]))
    ensures AllDigits(whole + places)
    ensures ScanUnsigned(negative, whole + ([DOT] + (places + rest)))
            == ScanExponent(negative, Decimal(whole + places), |places|, rest)
  {
    var text := whole + ([DOT] + (places + rest));
    DigitRunStops(whole, [DOT] + (places + rest));
    DigitRunStops(places, rest);
    assert text[|whole|] == DOT && text[|whole| + 1..] == places + rest && text[0] == whole[0];
    ScanAtPoint(negative, text, |whole|, |places|);
  }

  /** An exponent with the text behind it. */
  predicate IsPower(power: Text, e: int, rest: Text) {
    power == [LETTER_E, if e < 0 then MINUS else PLUS] + (Digits(Size(e)) + rest)
  }

  function Size(e: int): nat {
    if e < 0 then -e else e
  }

  lemma TwoInFront(a: CodeUnit, b: CodeUnit, ds: Text, rest: Text)
    ensures [a] + ([b] + ds) + rest == [a, b] + (ds + rest)
  {
  }

  lemma ExponentText(e: int, rest: Text)
    ensures IsPower([LETTER_E] + Exponent(e) + rest, e, rest)
  {
    TwoInFront(LETTER_E, if e < 0 then MINUS else PLUS, Digits(Size(e)), rest);
  }

  lemma SizeIsScaled(e: int)
    ensures Scaled(e < 0, Size(e)) == e
  {
  }

  /** After a letter and a sign, digits up to the end of the number. */
  lemma ScanSigned(negative: bool, n: nat, places: nat, text: Text, digits: Text, rest: Text)
    requires |text| > 2 && text[0] == LETTER_E && text[1] in [PLUS, MINUS] && text[2..] == digits + rest
    requires AllDigits(digits) && digits != [] && DigitRun(digits + rest) == |digits|
    ensures ScanExponent(negative, n, places, text)
            == Some((NumberOf(negative, n, Scaled(text[1] == MINUS, Decimal(digits)) - places), rest))
  {
    assert (digits + rest)[..|digits|] == digits && (digits + rest)[|digits|..] == rest;
  }

  lemma ScanPower(negative: bool, n: nat, places: nat, power: Text, e: int, rest: Text)
    requires EndsNumber(rest) && IsPower(power, e, rest)
    ensures ScanExponent(negative, n, places, power) == Some((NumberOf(negative, n, e - places), rest))
  {
    assert power[2..] == Digits(Size(e)) + rest && power[1] == if e < 0 then MINUS else PLUS;
    DigitRunStops(Digits(Size(e)), rest);
    DecimalUndoesDigits(Size(e));
    SizeIsScaled(e);
    ScanSigned(negative, n, places, power, Digits(Size(e)), rest);
  }

  lemma NoExponent(negative: bool, n: nat, places: nat, rest: Text)
    requires EndsNumber(rest)
    ensures ScanExponent(negative, n, places, rest) == Some((NumberOf(negative, n, Scaled(true, places)), rest))
  {
  }

  lemma StrippedNumberOf(negative: bool, m: nat, k: nat)
    requires m % 10 != 0
    ensures var ds := Digits(m) + Zeros(k);
            AllDigits(ds) && NumberOf(negative, Decimal(ds), 0) == Num(negative, m, |ds|)
  {
    ZerosAreStripped(m, k);
  }

  lemma ScanWithZeros(negative: bool, m: nat, k: nat, ds: Text, rest: Text)
    requires m % 10 != 0 && ds == Digits(m) + Zeros(k) && EndsNumber(rest)
    ensures ScanUnsigned(negative, ds + rest) == Some((Num(negative, m, |ds|), rest))
  {
    StrippedNumberOf(negative, m, k);
    assert ds[0] == Digits(m)[0];
    ScanWhole(negative, ds, rest);
  }

  lemma NumberEndsThere(negative: bool, read: Option<(Json, Text)>, m: nat, places: nat, rest: Text)
    requires read == ScanExponent(negative, m, places, rest) && m % 10 != 0 && EndsNumber(rest)
    ensures read == Some((Num(negative, m, |Digits(m)| - places), rest))
  {
    NoExponent(negative, m, places, rest);
    PlainNumberOf(negative, m, Scaled(true, places));
  }

  lemma DotText(whole: Text, places: Text, rest: Text)
    ensures whole + [DOT] + places + rest == whole + ([DOT] + (places + rest))
  {
  }

  lemma SmallDigits(m: nat, k: nat)
    ensures var places := Zeros(k) + Digits(m);
            AllDigits(places) && AllDigits([DIGIT_ZERO] + places) && Decimal([DIGIT_ZERO] + places) == m
  {
    assert [DIGIT_ZERO] + (Zeros(k) + Digits(m)) == Zeros(k + 1) + Digits(m);
    DecimalIgnoresLeadingZeros(k + 1, Digits(m));
    DecimalUndoesDigits(m);
  }

  lemma ScanSmall(negative: bool, m: nat, k: nat, places: Text, rest: Text)
    requires m % 10 != 0 && places == Zeros(k) + Digits(m) && EndsNumber(rest)
    ensures ScanUnsigned(negative, [DIGIT_ZERO] + ([DOT] + (places + rest))) == Some((Num(negative, m, 0 - k), rest))
  {
    SmallDigits(m, k);
    ScanFraction(negative, [DIGIT_ZERO], places, rest);
    NumberEndsThere(negative, ScanUnsigned(negative, [DIGIT_ZERO] + ([DOT] + (places + rest))), m, |places|, rest);
  }

  lemma ScanPointed(negative: bool, m: nat, whole: Text, places: Text, rest: Text)
    requires m % 10 != 0 && whole + places == Digits(m) && whole != [] && places != [] && EndsNumber(rest)
    ensures ScanUnsigned(negative, whole + ([DOT] + (places + rest))) == Some((Num(negative, m, |whole|), rest))
  {
    DecimalUndoesDigits(m);
    PartsAreDigits(m, whole, places);
    ScanFraction(negative, whole, places, rest);
    NumberEndsThere(negative, ScanUnsigned(negative, whole + ([DOT] + (places + rest))), m, |places|, rest);
  }

  lemma PartsAreDigits(m: nat, whole: Text, places: Text)
    requires m % 10 != 0 && whole + places == Digits(m) && whole != []
    ensures AllDigits(whole) && AllDigits(places) && whole[0] != DIGIT_ZERO
  {
    assert forall i :: 0 <= i < |whole| ==> whole[i] == Digits(m)[i];
    assert forall i :: 0 <= i < |places| ==> places[i] == Digits(m)[|whole| + i];
  }

  lemma ScanOneDigit(negative: bool, ds: Text, power: Text)
    requires AllDigits(ds) && |ds| == 1 && (power == [] || (!IsDigit(power[0]) && power[0] != DOT))
    ensures ScanUnsigned(negative, ds + power) == ScanExponent(negative, Decimal(ds), 0, power)
  {
    DigitRunStops(ds, power);
  }

  /** The digits of a number in scientific form, in front of its exponent. */
  lemma ScanScientific(negative: bool, ds: Text, power: Text)
    requires AllDigits(ds) && ds != [] && ds[0] != DIGIT_ZERO && (power == [] || (!IsDigit(power[0]) && power[0] != DOT))
    ensures ScanUnsigned(negative, Scientific(ds) + power) == ScanExponent(negative, Decimal(ds), |ds| - 1, power)
  {
    if |ds| == 1 {
      ScanOneDigit(negative, ds, power);
    } else {
      assert ds[..1] + ds[1..] == ds;
      ScanFraction(negative, ds[..1], ds[1..], power);
      DotText(ds[..1], ds[1..], power);
    }
  }

  lemma PowerEndsThere(negative: bool, m: nat, power: Text, e: int, rest: Text)
    requires IsPower(power, e, rest) && m % 10 != 0 && EndsNumber(rest)
    ensures ScanExponent(negative, m, |Digits(m)| - 1, power) == Some((Num(negative, m, e + 1), rest))
  {
    ScanPower(negative, m, |Digits(m)| - 1, power, e, rest);
    PlainNumberOf(negative, m, e - (|Digits(m)| - 1));
  }

  lemma ScanPowered(negative: bool, m: nat, power: Text, e: int, rest: Text)
    requires m % 10 != 0 && IsPower(power, e, rest) && EndsNumber(rest)
    ensures ScanUnsigned(negative, Scientific(Digits(m)) + power) == Some((Num(negative, m, e + 1), rest))
  {
    assert power[0] == LETTER_E;
    ScanScientific(negative, Digits(m), power);
    DecimalUndoesDigits(m);
    PowerEndsThere(negative, m, power, e, rest);
  }

  lemma NumeralForms(m: nat, point: int)
    ensures var ds := Digits(m);
            Numeral(m, point) == match FormOf(m, point)
                                 case Whole => ds + Zeros(point - |ds|)
                                 case Pointed => ds[..point] + [DOT] + ds[point..]
                                 case Small => [DIGIT_ZERO, DOT] + Zeros(-point) + ds
                                 case Powered => Scientific(ds) + [LETTER_E] + Exponent(point - 1)
  {
  }

  lemma SmallText(zeros: Text, ds: Text, rest: Text)
    ensures [DIGIT_ZERO, DOT] + zeros + ds + rest == [DIGIT_ZERO] + ([DOT] + (zeros + ds + rest))
  {
  }

  lemma PowerText(ds: Text, e: Text, rest: Text)
    ensures ds + [LETTER_E] + e + rest == ds + ([LETTER_E] + e + rest)
  {
  }

  lemma ScanPointedForm(negative: bool, m: nat, point: int, numeral: Text, rest: Text)
    requires m % 10 != 0 && EndsNumber(rest) && 0 < point < |Digits(m)|
    requires numeral == Digits(m)[..point] + [DOT] + Digits(m)[point..]
    ensures ScanUnsigned(negative, numeral + rest) == Some((Num(negative, m, point), rest))
  {
    assert Digits(m)[..point] + Digits(m)[point..] == Digits(m);
    DotText(Digits(m)[..point], Digits(m)[point..], rest);
    ScanPointed(negative, m, Digits(m)[..point], Digits(m)[point..], rest);
  }

  lemma ScanSmallForm(negative: bool, m: nat, point: int, numeral: Text, rest: Text)
    requires m % 10 != 0 && EndsNumber(rest) && point <= 0 && numeral == [DIGIT_ZERO, DOT] + Zeros(-point) + Digits(m)
    ensures ScanUnsigned(negative, numeral + rest) == Some((Num(negative, m, point), rest))
  {
    SmallText(Zeros(-point), Digits(m), rest);
    ScanSmall(negative, m, -point, Zeros(-point) + Digits(m), rest);
  }

  lemma ScanPoweredForm(negative: bool, m: nat, point: int, numeral: Text, rest: Text)
    requires m % 10 != 0 && EndsNumber(rest) && numeral == Scientific(Digits(m)) + [LETTER_E] + Exponent(point - 1)
    ensures ScanUnsigned(negative, numeral + rest) == Some((Num(negative, m, point), rest))
  {
    PowerText(Scientific(Digits(m)), Exponent(point - 1), rest);
    ExponentText(point - 1, rest);
    ScanPowered(negative, m, [LETTER_E] + Exponent(point - 1) + rest, point - 1, rest);
  }

  lemma ScanForm(negative: bool, m: nat, point: int, form: Form, numeral: Text, rest: Text)
    requires m % 10 != 0 && EndsNumber(rest) && form == FormOf(m, point)
    requires numeral == match form
                        case Whole => Digits(m) + Zeros(point - |Digits(m)|)
                        case Pointed => Digits(m)[..point] + [DOT] + Digits(m)[point..]
                        case Small => [DIGIT_ZERO, DOT] + Zeros(-point) + Digits(m)
                        case Powered => Scientific(Digits(m)) + [LETTER_E] + Exponent(point - 1)
    ensures ScanUnsigned(negative, numeral + rest) == Some((Num(negative, m, point), rest))
  {
    match form
    case Whole => ScanWithZeros(negative, m, point - |Digits(m)|, numeral, rest);
    case Pointed => ScanPointedForm(negative, m, point, numeral, rest);
    case Small => ScanSmallForm(negative, m, point, numeral, rest);
    case Powered => ScanPoweredForm(negative, m, point, numeral, rest);
  }

  lemma ScanNumeral(negative: bool, m: nat, point: int, rest: Text)
    requires m % 10 != 0 && EndsNumber(rest)
    ensures ScanUnsigned(negative, Numeral(m, point) + rest) == Some((Num(negative, m, point), rest))
  {
    NumeralForms(m, point);
    ScanForm(negative, m, point, FormOf(m, point), Numeral(m, point), rest);
  }

  lemma ScanZero(rest: Text)
    requires EndsNumber(rest)
    ensures ScanNumber([DIGIT_ZERO] + rest) == Some((Zero, rest))
  {
    DigitRunStops([DIGIT_ZERO], rest);
    assert [DIGIT_ZERO][..0] == [] && Decimal([DIGIT_ZERO]) == 0;
    ScanOneDigit(false, [DIGIT_ZERO], rest);
  }

  lemma SignedText(v: Json, rest: Text)
    requires v.Num?
    ensures NumberText(v) + rest
            == if v.negative then [MINUS] + (Numeral(v.mantissa, v.point) + rest) else Numeral(v.mantissa, v.point) + rest
  {
    assert [] + Numeral(v.mantissa, v.point) == Numeral(v.mantissa, v.point);
  }

  lemma ScanSign(negative: bool, text: Text)
    requires text != [] && text[0] != MINUS
    ensures ScanNumber(if negative then [MINUS] + text else text) == ScanUnsigned(negative, text)
  {
    assert ([MINUS] + text)[1..] == text;
  }

  /** A printed number reads as itself, negative zero as zero. */
  lemma ScanNumberText(v: Json, rest: Text)
    requires IsNumber(v) && Normal(v) && EndsNumber(rest)
    ensures ScanNumber(NumberText(v) + rest) == Some((if v.NegativeZero? then Zero else v, rest))
  {
    if v.Num? {
      var text := Numeral(v.mantissa, v.point) + rest;
      NumeralStarts(v.mantissa, v.point);
      assert text[0] == Numeral(v.mantissa, v.point)[0];
      ScanNumeral(v.negative, v.mantissa, v.point, rest);
      SignedText(v, rest);
      ScanSign(v.negative, text);
    } else {
      ScanZero(rest);
    }
  }

  // ---- Values read back ------------------------------------------------------------------------------------

  lemma StopsEndNumbers(rest: Text)
    requires Stops(rest)
    ensures EndsNumber(rest)
  {
  }

  lemma PrefixText(p: Text, rest: Text)
    ensures p <= p + rest && (p + rest)[|p|..] == rest
  {
  }

  /** Values without parts. */
  lemma ScanSimple(v: Json, rest: Text)
    requires WellFormed(v) && Plain(v) && !v.Arr? && !v.Obj? && Stops(rest)
    ensures ScanValue(Print(v) + rest) == Some((v, rest))
  {
    PrintStarts(v);
    PrefixText(Print(v), rest);
    assert (Print(v) + rest)[0] == Print(v)[0];
    if v.Str? {
      QuoteIsLiteral(v.s, rest);
      ScanLiteral(v.s, rest);
    } else if IsNumber(v) {
      StopsEndNumbers(rest);
      ScanNumberText(v, rest);
    }
  }

  lemma LastItem(text: Text, w: Json, rest: Text)
    requires ScanValue(text) == Some((w, [CLOSE_BRACKET] + rest))
    ensures ScanItems(text) == Some(([w], rest))
  {
    PrefixText([CLOSE_BRACKET], rest);
  }

  lemma NextItem(text: Text, w: Json, tail: Text, ws: seq<Json>, rest: Text)
    requires ScanValue(text) == Some((w, [COMMA] + tail)) && ScanItems(tail) == Some((ws, rest))
    ensures ScanItems(text) == Some(([w] + ws, rest))
  {
    PrefixText([COMMA], tail);
  }

  lemma LastField(text: Text, g: Field, rest: Text)
    requires ScanField(text) == Some((g, [CLOSE_BRACE] + rest))
    ensures ScanFields(text) == Some(([g], rest))
  {
    PrefixText([CLOSE_BRACE], rest);
  }

  lemma NextField(text: Text, g: Field, tail: Text, gs: seq<Field>, rest: Text)
    requires ScanField(text) == Some((g, [COMMA] + tail)) && ScanFields(tail) == Some((gs, rest))
    ensures ScanFields(text) == Some(([g] + gs, rest))
  {
    PrefixText([COMMA], tail);
  }

  lemma OneField(k: Text, value: Text, w: Json, rest: Text)
    requires ScanValue(value) == Some((w, rest))
    ensures ScanField(Quote(k) + ([COLON] + value)) == Some((Field(k, w), rest))
  {
    QuoteIsLiteral(k, [COLON] + value);
    ScanLiteral(k, [COLON] + value);
    PrefixText([COLON], value);
  }

  ghost predicate SameItems(items: seq<Json>, ws: seq<Json>) {
    |ws| == |items| && forall i :: 0 <= i < |items| ==> EqualUpToKeyOrder(items[i], ws[i])
  }

  /** The members read are those of the keys printed, in their order. */
  ghost predicate SameMembers(fields: seq<Field>, keys: seq<Text>, gs: seq<Field>)
    requires forall k :: k in keys ==> k in Keys(fields)
  {
    && |gs| == |keys|
    && forall i :: 0 <= i < |keys| ==> gs[i].key == keys[i] && EqualUpToKeyOrder(ValueAt(fields, keys[i]), gs[i].value)
  }

  lemma MoreMembers(fields: seq<Field>, keys: seq<Text>, g: Field, others: seq<Field>)
    requires keys != [] && (forall k :: k in keys ==> k in Keys(fields)) && SameMembers(fields, keys[1..], others)
    requires g.key == keys[0] && EqualUpToKeyOrder(ValueAt(fields, keys[0]), g.value)
    ensures SameMembers(fields, keys, [g] + others)
  {
    forall i | 0 < i < |keys|
      ensures ([g] + others)[i].key == keys[i] && EqualUpToKeyOrder(ValueAt(fields, keys[i]), ([g] + others)[i].value)
    {
      assert keys[1..][i - 1] == keys[i];
    }
  }

  lemma FirstField(fields: seq<Field>, keys: seq<Text>, w: Json, rest: Text)
    requires keys != [] && forall k :: k in keys ==> k in Keys(fields)
    requires var tail := FieldsTail(fields, keys, rest);
             ScanValue(Print(ValueAt(fields, keys[0])) + tail) == Some((w, tail))
    ensures ScanField(PrintFields(fields, keys) + [CLOSE_BRACE] + rest)
            == Some((Field(keys[0], w), FieldsTail(fields, keys, rest)))
  {
    var tail := FieldsTail(fields, keys, rest);
    FieldsSplit(fields, keys, rest);
    OneField(keys[0], Print(ValueAt(fields, keys[0])) + tail, w, tail);
  }

  lemma MembersMakeObjects(fields: seq<Field>, gs: seq<Field>)
    requires Distinct(Keys(fields)) && SameMembers(fields, SortedKeys(fields), gs)
    ensures EqualUpToKeyOrder(Obj(fields), Obj(gs))
  {
    SortKeeps(Keys(fields));
    var keys := SortedKeys(fields);
    assert Keys(gs) == keys;
    forall k | k in Keys(fields) ensures EqualUpToKeyOrder(fields[IndexOfKey(fields, k)].value, ValueAt(gs, k)) {
      var j := IndexOfKey(gs, k);
      assert gs[j].key == keys[j] == k;
    }
  }

  /** A printed value reads as an equal one, whatever follows it. */
  lemma {:induction false} ScanPrinted(v: Json, rest: Text) returns (w: Json)
    requires WellFormed(v) && Plain(v) && Stops(rest)
    ensures ScanValue(Print(v) + rest) == Some((w, rest)) && EqualUpToKeyOrder(v, w)
    decreases v, 1, 0
  {
    match v
    case Arr(items) => w := ScanArray(items, rest);
    case Obj(fields) => w := ScanObject(fields, rest);
    case _ =>
      w := v;
      ScanSimple(v, rest);
  }

  lemma {:induction false} ScanArray(items: seq<Json>, rest: Text) returns (w: Json)
    requires WellFormed(Arr(items)) && Plain(Arr(items)) && Stops(rest)
    ensures ScanValue(Print(Arr(items)) + rest) == Some((w, rest)) && EqualUpToKeyOrder(Arr(items), w)
    decreases items, 4, 0
  {
    var text := PrintItems(items) + [CLOSE_BRACKET] + rest;
    EnclosedText(OPEN_BRACKET, PrintItems(items), CLOSE_BRACKET, rest);
    PrefixText([OPEN_BRACKET], text);
    ItemsStart(items, rest);
    PlainNotUndefined(items);
    if items == [] {
      w := Arr([]);
      PrefixText([OPEN_BRACKET, CLOSE_BRACKET], rest);
    } else {
      var ws := ScanPrintedItems(items, rest);
      w := Arr(ws);
    }
  }

  lemma {:induction false} ScanPrintedItems(items: seq<Json>, rest: Text) returns (ws: seq<Json>)
    requires items != [] && WellFormed(Arr(items)) && Plain(Arr(items))
    ensures ScanItems(PrintItems(items) + [CLOSE_BRACKET] + rest) == Some((ws, rest)) && SameItems(items, ws)
    decreases items, 3, 0
  {
    var text := PrintItems(items) + [CLOSE_BRACKET] + rest;
    ItemsSplit(items, rest);
    var w := ScanPrinted(items[0], ItemsTail(items, rest));
    if |items| == 1 {
      ws := [w];
      LastItem(text, w, rest);
    } else {
      assert WellFormed(Arr(items[1..])) && Plain(Arr(items[1..]));
      var others := ScanPrintedItems(items[1..], rest);
      ws := [w] + others;
      NextItem(text, w, PrintItems(items[1..]) + [CLOSE_BRACKET] + rest, others, rest);
    }
  }

  lemma ScanNoFields(rest: Text)
    ensures ScanValue([OPEN_BRACE] + [] + [CLOSE_BRACE] + rest) == Some((Obj([]), rest))
  {
    PrefixText([OPEN_BRACE, CLOSE_BRACE], rest);
    assert [OPEN_BRACE] + [] + [CLOSE_BRACE] + rest == [OPEN_BRACE, CLOSE_BRACE] + rest;
  }

  lemma Braced(inner: Text, gs: seq<Field>, rest: Text)
    requires ScanFields(inner + [CLOSE_BRACE] + rest) == Some((gs, rest)) && (inner + [CLOSE_BRACE] + rest)[0] != CLOSE_BRACE
    ensures ScanValue([OPEN_BRACE] + inner + [CLOSE_BRACE] + rest) == Some((Obj(gs), rest))
  {
    EnclosedText(OPEN_BRACE, inner, CLOSE_BRACE, rest);
    PrefixText([OPEN_BRACE], inner + [CLOSE_BRACE] + rest);
  }

  lemma {:induction false} ScanObject(fields: seq<Field>, rest: Text) returns (w: Json)
    requires WellFormed(Obj(fields)) && Plain(Obj(fields)) && Stops(rest)
    ensures ScanValue(Print(Obj(fields)) + rest) == Some((w, rest)) && EqualUpToKeyOrder(Obj(fields), w)
    decreases Obj(fields), 0, |fields| + 1
  {
    var keys := SortedKeys(fields);
    SortKeeps(Keys(fields));
    if keys == [] {
      w := Obj([]);
      ScanNoFields(rest);
      MembersMakeObjects(fields, []);
    } else {
      var gs := ScanPrintedFields(fields, keys, rest);
      w := Obj(gs);
      FieldsStart(fields, keys, rest);
      Braced(PrintFields(fields, keys), gs, rest);
      MembersMakeObjects(fields, gs);
    }
  }

  lemma {:induction false} ScanPrintedFields(fields: seq<Field>, keys: seq<Text>, rest: Text) returns (gs: seq<Field>)
    requires keys != [] && (forall k :: k in keys ==> k in Keys(fields)) && WellFormed(Obj(fields)) && Plain(Obj(fields))
    ensures ScanFields(PrintFields(fields, keys) + [CLOSE_BRACE] + rest) == Some((gs, rest)) && SameMembers(fields, keys, gs)
    decreases Obj(fields), 0, |keys|
  {
    var text := PrintFields(fields, keys) + [CLOSE_BRACE] + rest;
    var i := IndexOfKey(fields, keys[0]);
    assert fields[i] in fields && WellFormed(fields[i].value) && Plain(fields[i].value);
    var w := ScanPrinted(fields[i].value, FieldsTail(fields, keys, rest));
    FirstField(fields, keys, w, rest);
    var g := Field(keys[0], w);
    if |keys| == 1 {
      gs := [g];
      LastField(text, g, rest);
    } else {
      var others := ScanPrintedFields(fields, keys[1..], rest);
      gs := [g] + others;
      MoreMembers(fields, keys, g, others);
      NextField(text, g, PrintFields(fields, keys[1..]) + [CLOSE_BRACE] + rest, others, rest);
    }
  }

  /** Reading back what was printed gives the value, up to the order of object keys. */
  lemma ReadUndoesPrint(v: Json) returns (w: Json)
    requires WellFormed(v) && Plain(v)
    ensures ScanValue(Print(v)) == Some((w, [])) && EqualUpToKeyOrder(v, w)
  {
    w := ScanPrinted(v, []);
    assert Print(v) + [] == Print(v);
  }

  // ---- What printed strings look like ----------------------------------------------------------------------

  /** Every surrogate is half of a pair: the text can be encoded as UTF-8. */
  predicate Paired(t: Text) {
    if t == [] then true
    else if 0xD800 <= t[0] <= 0xDBFF then |t| > 1 && 0xDC00 <= t[1] <= 0xDFFF && Paired(t[2..])
    else !(0xDC00 <= t[0] <= 0xDFFF) && Paired(t[1..])
  }

  lemma {:induction false} PairedTogether(s: Text, t: Text)
    requires Paired(s) && Paired(t)
    ensures Paired(s + t)
    decreases |s|
  {
    if s == [] {
      assert s + t == t;
    } else if 0xD800 <= s[0] <= 0xDBFF {
      assert (s + t)[2..] == s[2..] + t;
      PairedTogether(s[2..], t);
    } else {
      assert (s + t)[1..] == s[1..] + t;
      PairedTogether(s[1..], t);
    }
  }

  lemma {:induction false} OrdinaryIsPaired(t: Text)
    requires forall i :: 0 <= i < |t| ==> t[i] < 0xD800
    ensures Paired(t)
  {
    if t != [] {
      OrdinaryIsPaired(t[1..]);
    }
  }

  lemma UnitIsPaired(u: CodeUnit)
    ensures Paired(EscapeUnit(u))
  {
    if |EscapeUnit(u)| > 1 || u < 0xD800 {
      OrdinaryIsPaired(EscapeUnit(u));
    } else {
      assert EscapeUnit(u)[1..] == [];
    }
  }

  /** Printed strings have no lone surrogates, whatever the string has. */
  lemma {:induction false} EscapeIsPaired(s: Text)
    ensures Paired(Escape(s))
    decreases |s|
  {
    if s != [] {
      EscapeIsPaired(s[Taken(s)..]);
      if StartsWithPair(s) {
        assert s[..2][2..] == [];
      } else {
        UnitIsPaired(s[0]);
      }
      PairedTogether(Piece(s), Escape(s[Taken(s)..]));
    }
  }

  /** Printed strings escape nothing else: a paired text without quotes, backslashes and controls stays as it is. */
  lemma {:induction false} OrdinaryStringsStay(s: Text)
    requires Paired(s) && forall i :: 0 <= i < |s| ==> 0x20 <= s[i] && s[i] != QUOTE && s[i] != BACKSLASH
    ensures Escape(s) == s
    decreases |s|
  {
    if s != [] {
      OrdinaryStringsStay(s[Taken(s)..]);
      TakenApart(s);
    }
  }

  /** The short escapes are for quotes, backslashes and five controls; all others have four lower-case hex digits. */
  lemma ShortEscapesExactly(u: CodeUnit)
    ensures |EscapeUnit(u)| == 2 <==> u in {0x22, 0x5C, 0x08, 0x09, 0x0A, 0x0C, 0x0D}
    ensures |EscapeUnit(u)| in {1, 2, 6}
    ensures |EscapeUnit(u)| == 6 ==>
              forall i :: 2 <= i < 6 ==> 0x30 <= EscapeUnit(u)[i] <= 0x39 || 0x61 <= EscapeUnit(u)[i] <= 0x66
  {
  }
}
