/**
 The canonical JSON printer of the fulfilment cutover toolkit. Texts are sequences of UTF-16 code units,
 as in JavaScript, and keys are sorted by code unit.

 The main result is `CanonicalTextIdentifies`: two values print alike exactly when they are the same value up to
 key order and up to four collapses: a non-finite number prints like `null`, `[undefined]` like `[]`, negative zero
 like zero, and a Date, which has no keys of its own, like `{}`. On values that JSON text can carry the collapses
 vanish (`PlainSameIsEqual`).
 */
module CanonicalJson {
  import opened Sequences
  import opened Wrappers

  type CodeUnit = u: int | 0 <= u < 0x1_0000 witness 0
  type Text = seq<CodeUnit>

  /**
   A value as the printer meets it; the fields of an object are listed in insertion order. A number other than zero is
   0.d1d2... times ten to the power of `point`, where `mantissa` has the digits d1d2... and does not end in zero.
   */
  datatype Json =
    | Null
    | Undefined
    | NonFinite
    | Bool(b: bool)
    | Zero
    | NegativeZero
    | Num(negative: bool, mantissa: nat, point: int)
    | Str(s: Text)
    | Arr(items: seq<Json>)
    | Date(time: int)
    | Obj(fields: seq<Field>)

  datatype Field = Field(key: Text, value: Json)

  const QUOTE: CodeUnit := 0x22
  const COMMA: CodeUnit := 0x2C
  const PLUS: CodeUnit := 0x2B
  const MINUS: CodeUnit := 0x2D
  const DOT: CodeUnit := 0x2E
  const DIGIT_ZERO: CodeUnit := 0x30
  const COLON: CodeUnit := 0x3A
  const OPEN_BRACKET: CodeUnit := 0x5B
  const BACKSLASH: CodeUnit := 0x5C
  const CLOSE_BRACKET: CodeUnit := 0x5D
  const OPEN_BRACE: CodeUnit := 0x7B
  const CLOSE_BRACE: CodeUnit := 0x7D
  const LETTER_E: CodeUnit := 0x65
  const LETTER_U: CodeUnit := 0x75

  const NULL_TEXT: Text := [0x6E, 0x75, 0x6C, 0x6C]
  const TRUE_TEXT: Text := [0x74, 0x72, 0x75, 0x65]
  const FALSE_TEXT: Text := [0x66, 0x61, 0x6C, 0x73, 0x65]
  const UNDEFINED_TEXT: Text := [0x75, 0x6E, 0x64, 0x65, 0x66, 0x69, 0x6E, 0x65, 0x64]

  // ---- String literals -------------------------------------------------------------------------------------

  predicate HighSurrogate(u: CodeUnit) { 0xD800 <= u < 0xDC00 }

  predicate LowSurrogate(u: CodeUnit) { 0xDC00 <= u < 0xE000 }

  /** The text starts with a proper surrogate pair, which is printed as it is. */
  predicate StartsWithPair(s: Text) {
    |s| >= 2 && HighSurrogate(s[0]) && LowSurrogate(s[1])
  }

  function HexDigit(d: int): CodeUnit
    requires 0 <= d < 16
  {
    if d < 10 then 0x30 + d else 0x57 + d
  }

  function Hex4(u: CodeUnit): Text {
    [HexDigit(u / 16 / 16 / 16), HexDigit(u / 16 / 16 % 16), HexDigit(u / 16 % 16), HexDigit(u % 16)]
  }

  /** One code unit of a string literal that is not part of a surrogate pair. */
  function EscapeUnit(u: CodeUnit): Text {
    if u == 0x22 || u == 0x5C then [BACKSLASH, u]
    else if u == 0x08 then [BACKSLASH, 0x62]
    else if u == 0x09 then [BACKSLASH, 0x74]
    else if u == 0x0A then [BACKSLASH, 0x6E]
    else if u == 0x0C then [BACKSLASH, 0x66]
    else if u == 0x0D then [BACKSLASH, 0x72]
    else if u < 0x20 || HighSurrogate(u) || LowSurrogate(u) then [BACKSLASH, LETTER_U] + Hex4(u)
    else [u]
  }

  /** How many code units the next piece of a string literal stands for, and its text. */
  function Taken(s: Text): nat
    requires s != []
  {
    if StartsWithPair(s) then 2 else 1
  }

  function Piece(s: Text): Text
    requires s != []
  {
    if StartsWithPair(s) then s[..2] else EscapeUnit(s[0])
  }

  function Escape(s: Text): Text {
    if s == [] then [] else Piece(s) + Escape(s[Taken(s)..])
  }

  function Quote(s: Text): Text {
    [QUOTE] + Escape(s) + [QUOTE]
  }

  lemma Hex4Injective(u: CodeUnit, w: CodeUnit)
    requires Hex4(u) == Hex4(w)
    ensures u == w
  {
    assert Hex4(u)[0] == Hex4(w)[0] && Hex4(u)[1] == Hex4(w)[1] && Hex4(u)[2] == Hex4(w)[2] && Hex4(u)[3] == Hex4(w)[3];
    assert u / 16 / 16 == w / 16 / 16;
    assert u / 16 == w / 16;
  }

  lemma PieceShape(s: Text)
    requires s != []
    ensures var p := Piece(s);
            && |p| > 0 && p[0] != QUOTE
            && (p[0] == BACKSLASH ==> |p| >= 2 && |p| == (if p[1] == LETTER_U then 6 else 2))
            && (p[0] != BACKSLASH ==> |p| == (if HighSurrogate(p[0]) then 2 else 1))
  {
  }

  /** Pieces are self-delimiting and each stands for one stretch of code units. */
  lemma PieceUnique(s: Text, t: Text, x: Text, y: Text)
    requires s != [] && t != []
    requires Piece(s) + x == Piece(t) + y
    ensures Taken(s) == Taken(t) && s[..Taken(s)] == t[..Taken(t)] && x == y
  {
    var p, q := Piece(s), Piece(t);
    PieceShape(s);
    PieceShape(t);
    assert (p + x)[0] == p[0] && (q + y)[0] == q[0];
    if p[0] == BACKSLASH {
      assert (p + x)[1] == p[1] && (q + y)[1] == q[1];
    }
    assert |p| == |q|;
    assert p == (p + x)[..|p|] && q == (q + y)[..|q|];
    DropCommonPrefix(p, x, y);
    if |p| == 6 {
      assert Hex4(s[0]) == p[2..] && Hex4(t[0]) == q[2..];
      Hex4Injective(s[0], t[0]);
    }
  }

  lemma RegroupText<T>(p: seq<T>, e: seq<T>, q: seq<T>, x: seq<T>)
    ensures (p + e) + q + x == p + (e + q + x)
  {
  }

  /** What follows the opening quote of a string literal, up to the end of the text. */
  function Literal(s: Text, x: Text): Text {
    Escape(s) + [QUOTE] + x
  }

  lemma LiteralStep(s: Text, x: Text)
    ensures s == [] ==> Literal(s, x) == [QUOTE] + x
    ensures s != [] ==> Literal(s, x) == Piece(s) + Literal(s[Taken(s)..], x) && Literal(s, x)[0] != QUOTE
  {
    if s != [] {
      PieceShape(s);
      RegroupText(Piece(s), Escape(s[Taken(s)..]), [QUOTE], x);
    }
  }

  lemma TakenApart(s: Text)
    requires s != []
    ensures s == s[..Taken(s)] + s[Taken(s)..]
  {
  }

  lemma {:induction false} EscapeUnique(s: Text, t: Text, x: Text, y: Text)
    requires Literal(s, x) == Literal(t, y)
    ensures s == t && x == y
    decreases |s|
  {
    LiteralStep(s, x);
    LiteralStep(t, y);
    if s == [] || t == [] {
      DropCommonPrefix([QUOTE], x, y);
    } else {
      PieceUnique(s, t, Literal(s[Taken(s)..], x), Literal(t[Taken(t)..], y));
      EscapeUnique(s[Taken(s)..], t[Taken(t)..], x, y);
      TakenApart(s);
      TakenApart(t);
    }
  }

  lemma QuoteUnique(s: Text, t: Text, x: Text, y: Text)
    requires Quote(s) + x == Quote(t) + y
    ensures s == t && x == y
  {
    var e, f := Escape(s), Escape(t);
    RegroupText([QUOTE], e, [QUOTE], x);
    RegroupText([QUOTE], f, [QUOTE], y);
    DropCommonPrefix([QUOTE], e + [QUOTE] + x, f + [QUOTE] + y);
    EscapeUnique(s, t, x, y);
  }

  // ---- Numbers ---------------------------------------------------------------------------------------------

  predicate IsDigit(u: CodeUnit) { 0x30 <= u <= 0x39 }

  function Digits(n: nat): (ds: Text)
    ensures |ds| > 0 && forall i :: 0 <= i < |ds| ==> IsDigit(ds[i])
    ensures n < 10 <==> |ds| == 1
    ensures 0 < n ==> ds[0] != DIGIT_ZERO
    ensures ds[|ds| - 1] == DIGIT_ZERO <==> n % 10 == 0
  {
    if n < 10 then [DIGIT_ZERO + n] else Digits(n / 10) + [DIGIT_ZERO + n % 10]
  }

  function Zeros(n: nat): (zs: Text)
    ensures |zs| == n && forall i :: 0 <= i < n ==> zs[i] == DIGIT_ZERO
  {
    seq(n, i => DIGIT_ZERO)
  }

  /** The digits with a point after the first one, if there are more. */
  function Scientific(ds: Text): Text
    requires ds != []
  {
    if |ds| == 1 then ds else ds[..1] + [DOT] + ds[1..]
  }

  function Exponent(e: int): Text {
    if e < 0 then [MINUS] + Digits(-e) else [PLUS] + Digits(e)
  }

  /** Number::toString of ECMA-262, section 6.1.6.1.20, for a positive number in base ten. */
  function Numeral(mantissa: nat, point: int): Text {
    var ds := Digits(mantissa);
    if |ds| <= point <= 21 then ds + Zeros(point - |ds|)
    else if 0 < point <= 21 then ds[..point] + [DOT] + ds[point..]
    else if -6 < point <= 0 then [DIGIT_ZERO, DOT] + Zeros(-point) + ds
    else Scientific(ds) + [LETTER_E] + Exponent(point - 1)
  }

  predicate IsNumber(v: Json) {
    v.Zero? || v.NegativeZero? || v.Num?
  }

  function NumberText(v: Json): Text
    requires IsNumber(v)
  {
    match v
    case Num(negative, m, point) => (if negative then [MINUS] else []) + Numeral(m, point)
    case _ => [DIGIT_ZERO]
  }

  /** The number zero, or one whose digits do not end in zero. */
  predicate Normal(v: Json) {
    v.Num? ==> v.mantissa % 10 != 0
  }

  /** Whatever follows a printed value: nothing, a comma or a closing bracket. */
  predicate Stops(rest: Text) {
    rest == [] || rest[0] == COMMA || rest[0] == CLOSE_BRACKET || rest[0] == CLOSE_BRACE
  }

  predicate NumberUnit(u: CodeUnit) {
    IsDigit(u) || u == DOT || u == LETTER_E || u == PLUS || u == MINUS
  }

  lemma {:induction false} DigitsInjective(m: nat, n: nat)
    requires Digits(m) == Digits(n)
    ensures m == n
  {
    var ds, es := Digits(m), Digits(n);
    assert ds[|ds| - 1] == es[|es| - 1];
    if m >= 10 && n >= 10 {
      assert ds[..|ds| - 1] == Digits(m / 10) && es[..|es| - 1] == Digits(n / 10);
      DigitsInjective(m / 10, n / 10);
    }
  }

  /** Texts of number units end where the number ends. */
  lemma NumberEnds(s: Text, t: Text, x: Text, y: Text)
    requires (forall u :: u in s ==> NumberUnit(u)) && (forall u :: u in t ==> NumberUnit(u))
    requires Stops(x) && Stops(y) && s + x == t + y
    ensures s == t && x == y
  {
    assert forall i :: 0 <= i < |s| ==> (s + x)[i] == s[i] && s[i] in s;
    assert forall i :: 0 <= i < |t| ==> (t + y)[i] == t[i] && t[i] in t;
    assert x != [] ==> (s + x)[|s|] == x[0];
    assert y != [] ==> (t + y)[|t|] == y[0];
    assert |s| == |t|;
    assert s == (s + x)[..|s|] && t == (t + y)[..|t|];
    DropCommonPrefix(s, x, y);
  }

  lemma ExponentUnits(e: int)
    ensures forall u :: u in Exponent(e) ==> NumberUnit(u)
  {
  }

  lemma NumeralUnits(m: nat, point: int)
    ensures forall u :: u in Numeral(m, point) ==> NumberUnit(u)
  {
    ExponentUnits(point - 1);
    assert forall u :: u in Digits(m) ==> NumberUnit(u);
    assert forall u :: u in Scientific(Digits(m)) ==> NumberUnit(u);
  }

  lemma NumberUnits(v: Json)
    requires IsNumber(v)
    ensures forall u :: u in NumberText(v) ==> NumberUnit(u)
  {
    if v.Num? {
      NumeralUnits(v.mantissa, v.point);
    }
  }

  /** The four forms of a numeral can be told apart. */
  datatype Form = Whole | Pointed | Small | Powered

  function FormOf(mantissa: nat, point: int): Form {
    if |Digits(mantissa)| <= point <= 21 then Whole
    else if 0 < point <= 21 then Pointed
    else if -6 < point <= 0 then Small
    else Powered
  }

  /** Where the letter stands between texts without one. */
  lemma OneLetter(s: Text, e: Text)
    requires LETTER_E !in s && LETTER_E !in e
    ensures var t := s + [LETTER_E] + e;
            && t[|s|] == LETTER_E && t[..|s|] == s && t[|s| + 1..] == e
            && (forall i :: 0 <= i < |t| && i != |s| ==> t[i] != LETTER_E)
  {
  }

  lemma NoLetter(mantissa: nat, e: int)
    ensures LETTER_E !in Scientific(Digits(mantissa)) && LETTER_E !in Exponent(e)
  {
  }

  lemma PoweredShape(mantissa: nat, point: int)
    requires point <= -6 || 21 < point
    ensures var t, s := Numeral(mantissa, point), Scientific(Digits(mantissa));
            && |s| < |t| && t[|s|] == LETTER_E && t[..|s|] == s && t[|s| + 1..] == Exponent(point - 1)
            && (forall i :: 0 <= i < |t| && i != |s| ==> t[i] != LETTER_E)
  {
    NoLetter(mantissa, point - 1);
    OneLetter(Scientific(Digits(mantissa)), Exponent(point - 1));
  }

  lemma PlainShape(mantissa: nat, point: int)
    requires mantissa % 10 != 0 && FormOf(mantissa, point) != Powered
    ensures var t := Numeral(mantissa, point);
            && (t[0] == DIGIT_ZERO <==> FormOf(mantissa, point) == Small)
            && (forall i :: 0 <= i < |t| ==> t[i] != LETTER_E)
            && (FormOf(mantissa, point) == Whole ==> |t| == point && forall i :: 0 <= i < |t| ==> IsDigit(t[i]))
            && (FormOf(mantissa, point) == Pointed ==>
                  point < |t| && t[point] == DOT && forall i :: 0 <= i < |t| && i != point ==> IsDigit(t[i]))
            && (FormOf(mantissa, point) == Small ==> |t| > 2 && t[1] == DOT)
  {
  }

  lemma SameForm(m: nat, p: int, n: nat, q: int)
    requires m % 10 != 0 && n % 10 != 0 && Numeral(m, p) == Numeral(n, q)
    ensures FormOf(m, p) == FormOf(n, q)
  {
    var t := Numeral(m, p);
    if FormOf(m, p) == Powered { PoweredShape(m, p); } else { PlainShape(m, p); }
    if FormOf(n, q) == Powered { PoweredShape(n, q); } else { PlainShape(n, q); }
    assert FormOf(m, p) == Pointed ==> t[p] == DOT;
    assert FormOf(n, q) == Pointed ==> t[q] == DOT;
  }

  /** Trailing zeros can be told from digits that do not end in zero. */
  lemma TrailingZeros(ds: Text, i: nat, es: Text, j: nat)
    requires ds != [] && es != [] && ds[|ds| - 1] != DIGIT_ZERO && es[|es| - 1] != DIGIT_ZERO
    requires ds + Zeros(i) == es + Zeros(j)
    ensures ds == es
  {
    var t := ds + Zeros(i);
    assert t[|ds| - 1] == ds[|ds| - 1] && t[|es| - 1] == es[|es| - 1];
    assert |ds| == |es|;
    assert ds == t[..|ds|] && es == t[..|es|];
  }

  lemma LeadingZeros(i: nat, ds: Text, j: nat, es: Text)
    requires ds != [] && es != [] && ds[0] != DIGIT_ZERO && es[0] != DIGIT_ZERO
    requires Zeros(i) + ds == Zeros(j) + es
    ensures i == j && ds == es
  {
    var t := Zeros(i) + ds;
    assert t[i] == ds[0] && t[j] == es[0];
    DropCommonPrefix(Zeros(i), ds, es);
  }

  lemma SmallUnique(m: nat, p: int, n: nat, q: int)
    requires m % 10 != 0 && n % 10 != 0 && Numeral(m, p) == Numeral(n, q)
    requires FormOf(m, p) == FormOf(n, q) == Small
    ensures m == n && p == q
  {
    var ds, es := Digits(m), Digits(n);
    Regroup([DIGIT_ZERO, DOT], Zeros(-p), ds);
    Regroup([DIGIT_ZERO, DOT], Zeros(-q), es);
    DropCommonPrefix([DIGIT_ZERO, DOT], Zeros(-p) + ds, Zeros(-q) + es);
    LeadingZeros(-p, ds, -q, es);
    DigitsInjective(m, n);
  }

  lemma PointedUnique(m: nat, p: int, n: nat, q: int)
    requires m % 10 != 0 && n % 10 != 0 && Numeral(m, p) == Numeral(n, q)
    requires FormOf(m, p) == FormOf(n, q) == Pointed
    ensures m == n && p == q
  {
    PlainShape(m, p);
    PlainShape(n, q);
    var ds, es, t := Digits(m), Digits(n), Numeral(m, p);
    assert p == q;
    assert t[..p] == ds[..p] == es[..p] && t[p + 1..] == ds[p..] == es[p..];
    assert ds == ds[..p] + ds[p..] && es == es[..p] + es[p..];
    DigitsInjective(m, n);
  }

  lemma ScientificUnique(ds: Text, es: Text)
    requires ds != [] && es != [] && Scientific(ds) == Scientific(es)
    ensures ds == es
  {
    var s := Scientific(ds);
    if |ds| > 1 && |es| > 1 {
      assert s[..1] == ds[..1] == es[..1] && s[2..] == ds[1..] == es[1..];
      assert ds == ds[..1] + ds[1..] && es == es[..1] + es[1..];
    }
  }

  lemma PoweredUnique(m: nat, p: int, n: nat, q: int)
    requires Numeral(m, p) == Numeral(n, q) && FormOf(m, p) == FormOf(n, q) == Powered
    ensures m == n && p == q
  {
    PoweredShape(m, p);
    PoweredShape(n, q);
    ScientificUnique(Digits(m), Digits(n));
    DigitsInjective(m, n);
    var e, f := Exponent(p - 1), Exponent(q - 1);
    assert e == f && e[0] == f[0];
    assert e[1..] == Digits(if p - 1 < 0 then 1 - p else p - 1) && f[1..] == Digits(if q - 1 < 0 then 1 - q else q - 1);
    DigitsInjective(if p - 1 < 0 then 1 - p else p - 1, if q - 1 < 0 then 1 - q else q - 1);
  }

  lemma NumeralInjective(m: nat, p: int, n: nat, q: int)
    requires m % 10 != 0 && n % 10 != 0 && Numeral(m, p) == Numeral(n, q)
    ensures m == n && p == q
  {
    SameForm(m, p, n, q);
    match FormOf(m, p)
    case Small => SmallUnique(m, p, n, q);
    case Pointed => PointedUnique(m, p, n, q);
    case Powered => PoweredUnique(m, p, n, q);
    case Whole =>
      PlainShape(m, p);
      PlainShape(n, q);
      TrailingZeros(Digits(m), p - |Digits(m)|, Digits(n), q - |Digits(n)|);
      DigitsInjective(m, n);
  }

  lemma NumeralStarts(m: nat, p: int)
    requires m % 10 != 0
    ensures |Numeral(m, p)| > 0 && IsDigit(Numeral(m, p)[0]) && Numeral(m, p) != [DIGIT_ZERO]
  {
    if FormOf(m, p) == Powered { PoweredShape(m, p); } else { PlainShape(m, p); }
  }

  predicate SameNumber(a: Json, b: Json) {
    a == b || (a.Zero? && b.NegativeZero?) || (a.NegativeZero? && b.Zero?)
  }

  lemma SignedNumeral(v: Json)
    requires v.Num? && Normal(v)
    ensures |NumberText(v)| > 0 && NumberText(v) != [DIGIT_ZERO]
    ensures v.negative <==> NumberText(v)[0] == MINUS
    ensures Numeral(v.mantissa, v.point) == if v.negative then NumberText(v)[1..] else NumberText(v)
  {
    NumeralStarts(v.mantissa, v.point);
  }

  /** A printed number followed by a separator determines the number, except for the sign of zero. */
  lemma NumberUnique(a: Json, b: Json, x: Text, y: Text)
    requires IsNumber(a) && IsNumber(b) && Normal(a) && Normal(b)
    requires Stops(x) && Stops(y) && NumberText(a) + x == NumberText(b) + y
    ensures SameNumber(a, b) && x == y
  {
    NumberUnits(a);
    NumberUnits(b);
    NumberEnds(NumberText(a), NumberText(b), x, y);
    if a.Num? { SignedNumeral(a); }
    if b.Num? { SignedNumeral(b); }
    if a.Num? && b.Num? {
      NumeralInjective(a.mantissa, a.point, b.mantissa, b.point);
    }
  }

  // ---- Whole numbers ---------------------------------------------------------------------------------------

  function WithoutZeros(n: nat): (m: nat)
    requires 0 < n
    ensures m % 10 != 0 && |Digits(m)| <= |Digits(n)|
    ensures Digits(n) == Digits(m) + Zeros(|Digits(n)| - |Digits(m)|)
  {
    if n % 10 != 0 then n
    else
      var m := WithoutZeros(n / 10);
      assert Zeros(|Digits(n)| - |Digits(m)|) == Zeros(|Digits(n / 10)| - |Digits(m)|) + [DIGIT_ZERO];
      m
  }

  /** A count as a number value. */
  function Count(n: nat): Json {
    if n == 0 then Zero else Num(false, WithoutZeros(n), |Digits(n)|)
  }

  lemma CountInjective(m: nat, n: nat)
    requires Count(m) == Count(n)
    ensures m == n
  {
    if m != 0 && n != 0 {
      DigitsInjective(m, n);
    }
  }

  // ---- Key order -------------------------------------------------------------------------------------------

  /** Code-unit order, as `Array.prototype.sort` uses on strings. */
  predicate Before(a: Text, b: Text) {
    b != [] && (a == [] || a[0] < b[0] || (a[0] == b[0] && Before(a[1..], b[1..])))
  }

  lemma {:induction false} BeforeIsStrictOrder(a: Text, b: Text, c: Text)
    ensures !(Before(a, b) && Before(b, a))
    ensures Before(a, b) && Before(b, c) ==> Before(a, c)
    ensures a == b || Before(a, b) || Before(b, a)
    decreases |a|
  {
    if a != [] && b != [] {
      assert a == [a[0]] + a[1..] && b == [b[0]] + b[1..];
      BeforeIsStrictOrder(a[1..], b[1..], if c == [] then [] else c[1..]);
    }
  }

  predicate Ascending(keys: seq<Text>) {
    forall i, j :: 0 <= i < j < |keys| ==> Before(keys[i], keys[j])
  }

  function Insert(k: Text, keys: seq<Text>): seq<Text> {
    if keys == [] || Before(k, keys[0]) then [k] + keys else [keys[0]] + Insert(k, keys[1..])
  }

  function Sort(keys: seq<Text>): seq<Text> {
    if keys == [] then [] else Insert(keys[0], Sort(keys[1..]))
  }

  predicate Distinct(keys: seq<Text>) {
    forall i, j :: 0 <= i < j < |keys| ==> keys[i] != keys[j]
  }

  lemma {:induction false} InsertKeeps(k: Text, keys: seq<Text>)
    requires Ascending(keys) && k !in keys
    ensures Ascending(Insert(k, keys))
    ensures forall q :: q in Insert(k, keys) <==> q == k || q in keys
    ensures |Insert(k, keys)| == |keys| + 1
  {
    if keys == [] {
    } else if Before(k, keys[0]) {
      forall j | 0 <= j < |keys| ensures Before(k, keys[j]) {
        BeforeIsStrictOrder(k, keys[0], keys[j]);
      }
    } else {
      var rest := Insert(k, keys[1..]);
      assert keys[0] in keys;
      InsertKeeps(k, keys[1..]);
      BeforeIsStrictOrder(k, keys[0], []);
      assert keys == [keys[0]] + keys[1..];
      forall j | 0 <= j < |rest| ensures Before(keys[0], rest[j]) {
        assert rest[j] in rest;
      }
    }
  }

  lemma {:induction false} SortKeeps(keys: seq<Text>)
    requires Distinct(keys)
    ensures Ascending(Sort(keys)) && |Sort(keys)| == |keys|
    ensures forall q :: q in Sort(keys) <==> q in keys
  {
    if keys != [] {
      SortKeeps(keys[1..]);
      assert keys[0] !in keys[1..];
      InsertKeeps(keys[0], Sort(keys[1..]));
      assert keys == [keys[0]] + keys[1..];
    }
  }

  /** A sorted list of keys is determined by which keys it holds. */
  lemma {:induction false} AscendingUnique(a: seq<Text>, b: seq<Text>)
    requires Ascending(a) && Ascending(b)
    requires forall q :: q in a <==> q in b
    ensures a == b
  {
    FirstIsMember(a);
    FirstIsMember(b);
    if a != [] {
      var i :| 0 <= i < |b| && b[i] == a[0];
      var j :| 0 <= j < |a| && a[j] == b[0];
      BeforeIsStrictOrder(a[0], b[0], []);
      assert a[0] == b[0];
      forall q ensures q in a[1..] <==> q in b[1..] {
        BeforeIsStrictOrder(a[0], a[0], []);
        if q in a[1..] { assert q in a && Before(a[0], q); assert q in b; }
        if q in b[1..] { assert q in b && Before(b[0], q); assert q in a; }
      }
      AscendingUnique(a[1..], b[1..]);
      assert a == [a[0]] + a[1..] && b == [b[0]] + b[1..];
    }
  }

  // ---- The printer -----------------------------------------------------------------------------------------

  function Keys(fields: seq<Field>): seq<Text> {
    seq(|fields|, i requires 0 <= i < |fields| => fields[i].key)
  }

  function IndexOfKey(fields: seq<Field>, k: Text): (i: nat)
    requires k in Keys(fields)
    ensures i < |fields| && fields[i].key == k
  {
    if fields[0].key == k then 0
    else
      assert Keys(fields)[1..] == Keys(fields[1..]);
      assert Keys(fields) == [fields[0].key] + Keys(fields)[1..];
      1 + IndexOfKey(fields[1..], k)
  }

  function ValueAt(fields: seq<Field>, k: Text): Json
    requires k in Keys(fields)
  {
    fields[IndexOfKey(fields, k)].value
  }

  function Print(v: Json): Text
    decreases v, 1, 0
  {
    match v
    case Null => NULL_TEXT
    case Undefined => UNDEFINED_TEXT
    case NonFinite => NULL_TEXT
    case Bool(b) => if b then TRUE_TEXT else FALSE_TEXT
    case Str(s) => Quote(s)
    case Date(_) => [OPEN_BRACE, CLOSE_BRACE]
    case Arr(items) => [OPEN_BRACKET] + PrintItems(items) + [CLOSE_BRACKET]
    case Obj(fields) => [OPEN_BRACE] + PrintFields(fields, SortedKeys(fields)) + [CLOSE_BRACE]
    case _ => NumberText(v)
  }

  /** `join` turns an undefined element into the empty text. */
  function PrintItem(v: Json): Text
    decreases v, 2, 0
  {
    if v.Undefined? then [] else Print(v)
  }

  function PrintItems(items: seq<Json>): Text
    decreases items, 3, 0
  {
    if items == [] then []
    else if |items| == 1 then PrintItem(items[0])
    else PrintItem(items[0]) + [COMMA] + PrintItems(items[1..])
  }

  function SortedKeys(fields: seq<Field>): (keys: seq<Text>)
    ensures forall k :: k in keys ==> k in Keys(fields)
  {
    SortOnlyKeeps(Keys(fields));
    Sort(Keys(fields))
  }

  lemma {:induction false} InsertOnlyAdds(k: Text, keys: seq<Text>)
    ensures forall q :: q in Insert(k, keys) ==> q == k || q in keys
  {
    if keys != [] && !Before(k, keys[0]) { InsertOnlyAdds(k, keys[1..]); }
  }

  lemma {:induction false} SortOnlyKeeps(keys: seq<Text>)
    ensures forall q :: q in Sort(keys) ==> q in keys
  {
    if keys != [] {
      SortOnlyKeeps(keys[1..]);
      InsertOnlyAdds(keys[0], Sort(keys[1..]));
    }
  }

  function PrintField(fields: seq<Field>, k: Text): Text
    requires k in Keys(fields)
    decreases Obj(fields), 0, 0
  {
    var i := IndexOfKey(fields, k);
    assert fields[i] in fields;
    Quote(k) + [COLON] + Print(fields[i].value)
  }

  function PrintFields(fields: seq<Field>, keys: seq<Text>): Text
    requires forall k :: k in keys ==> k in Keys(fields)
    decreases Obj(fields), 0, |keys|
  {
    if keys == [] then []
    else if |keys| == 1 then PrintField(fields, keys[0])
    else PrintField(fields, keys[0]) + [COMMA] + PrintFields(fields, keys[1..])
  }

  /** The exported printer: the text, or nothing for a bare `undefined`. */
  function Canonical(v: Json): Option<Text> {
    if v.Undefined? then None else Some(Print(v))
  }

  // ---- What the text identifies ----------------------------------------------------------------------------

  /** Object keys are distinct and numbers normal, at every depth; JavaScript values cannot be otherwise. */
  predicate WellFormed(v: Json) {
    match v
    case Arr(items) => forall i :: 0 <= i < |items| ==> WellFormed(items[i])
    case Obj(fields) => Distinct(Keys(fields)) && forall i :: 0 <= i < |fields| ==> WellFormed(fields[i].value)
    case _ => Normal(v)
  }

  /** Arrays that print as nothing between the brackets. */
  predicate Hollow(items: seq<Json>) {
    items == [] || items == [Undefined]
  }

  /** The same value up to the order of object keys, and up to the four collapses of the printer. */
  ghost predicate Same(a: Json, b: Json)
    decreases a
  {
    match (a, b)
    case (Null, _) => b.Null? || b.NonFinite?
    case (NonFinite, _) => b.Null? || b.NonFinite?
    case (Zero, _) => b.Zero? || b.NegativeZero?
    case (NegativeZero, _) => b.Zero? || b.NegativeZero?
    case (Date(_), _) => b.Date? || b == Obj([])
    case (Obj(fs), Date(_)) => fs == []
    case (Arr(xs), Arr(ys)) =>
      || (Hollow(xs) && Hollow(ys))
      || (|xs| == |ys| && forall i :: 0 <= i < |xs| ==> Same(xs[i], ys[i]))
    case (Obj(fs), Obj(gs)) =>
      && (forall k :: k in Keys(fs) <==> k in Keys(gs))
      && (forall k :: k in Keys(fs) ==> Same(fs[IndexOfKey(fs, k)].value, ValueAt(gs, k)))
    case _ => a == b
  }

  lemma PrintStarts(v: Json)
    requires WellFormed(v)
    ensures |Print(v)| > 0
    ensures Print(v)[0] == 0x6E <==> v.Null? || v.NonFinite?
    ensures Print(v)[0] == 0x75 <==> v.Undefined?
    ensures Print(v)[0] == 0x74 <==> v == Bool(true)
    ensures Print(v)[0] == 0x66 <==> v == Bool(false)
    ensures Print(v)[0] == QUOTE <==> v.Str?
    ensures Print(v)[0] == OPEN_BRACKET <==> v.Arr?
    ensures Print(v)[0] == OPEN_BRACE <==> v.Obj? || v.Date?
    ensures Print(v)[0] == MINUS || IsDigit(Print(v)[0]) <==> IsNumber(v)
  {
    if v.Num? {
      NumeralStarts(v.mantissa, v.point);
    }
  }

  /** What follows the first item of a printed array. */
  function ItemsTail(items: seq<Json>, x: Text): Text
    requires items != []
  {
    if |items| == 1 then [CLOSE_BRACKET] + x else [COMMA] + (PrintItems(items[1..]) + [CLOSE_BRACKET] + x)
  }

  lemma Regroup5<T>(a: seq<T>, b: seq<T>, c: seq<T>, d: seq<T>, e: seq<T>)
    ensures a + b + c + d + e == a + (b + (c + d + e))
  {
  }

  lemma ItemsSplit(items: seq<Json>, x: Text)
    requires items != []
    ensures PrintItems(items) + [CLOSE_BRACKET] + x == PrintItem(items[0]) + ItemsTail(items, x)
  {
    if |items| == 1 {
      assert PrintItem(items[0]) + [CLOSE_BRACKET] + x == PrintItem(items[0]) + ([CLOSE_BRACKET] + x);
    } else {
      Regroup5(PrintItem(items[0]), [COMMA], PrintItems(items[1..]), [CLOSE_BRACKET], x);
    }
  }

  /** The text of an array closes at once exactly when it has nothing to show. */
  lemma ItemsStart(items: seq<Json>, x: Text)
    requires WellFormed(Arr(items))
    ensures (PrintItems(items) + [CLOSE_BRACKET] + x)[0] == CLOSE_BRACKET <==> Hollow(items)
  {
    if items != [] {
      ItemsSplit(items, x);
      if !items[0].Undefined? {
        PrintStarts(items[0]);
        assert (PrintItem(items[0]) + ItemsTail(items, x))[0] == Print(items[0])[0];
      }
    }
  }

  lemma ReadItem(a: Json, b: Json, x: Text, y: Text)
    requires WellFormed(a) && WellFormed(b) && Stops(x) && Stops(y) && x != [] && y != []
    requires PrintItem(a) + x == PrintItem(b) + y
    ensures Same(a, b) && x == y
    decreases a, 2, 0
  {
    if !a.Undefined? {
      PrintStarts(a);
      assert (PrintItem(a) + x)[0] == Print(a)[0];
    }
    if !b.Undefined? {
      PrintStarts(b);
      assert (PrintItem(b) + y)[0] == Print(b)[0];
    }
    if a.Undefined? {
      assert PrintItem(a) + x == x && PrintItem(b) + y == y;
    } else {
      ReadValue(a, b, x, y);
    }
  }

  lemma SameItemsTail(xs: seq<Json>, ys: seq<Json>, x: Text, y: Text)
    requires xs != [] && ys != [] && ItemsTail(xs, x) == ItemsTail(ys, y)
    ensures |xs| == 1 <==> |ys| == 1
    ensures |xs| == 1 ==> x == y
    ensures |xs| > 1 ==> PrintItems(xs[1..]) + [CLOSE_BRACKET] + x == PrintItems(ys[1..]) + [CLOSE_BRACKET] + y
  {
    assert ItemsTail(xs, x)[0] == ItemsTail(ys, y)[0];
    if |xs| == 1 {
      DropCommonPrefix([CLOSE_BRACKET], x, y);
    } else {
      DropCommonPrefix([COMMA], PrintItems(xs[1..]) + [CLOSE_BRACKET] + x, PrintItems(ys[1..]) + [CLOSE_BRACKET] + y);
    }
  }

  lemma SameArrays(xs: seq<Json>, ys: seq<Json>)
    requires |xs| > 1 && |ys| > 1 && Same(xs[0], ys[0]) && Same(Arr(xs[1..]), Arr(ys[1..]))
    ensures Same(Arr(xs), Arr(ys))
  {
    assert xs == [xs[0]] + xs[1..] && ys == [ys[0]] + ys[1..];
  }

  /** Arrays without anything to show close at once. */
  lemma ReadHollow(xs: seq<Json>, ys: seq<Json>, x: Text, y: Text)
    requires Hollow(xs) && Hollow(ys)
    requires PrintItems(xs) + [CLOSE_BRACKET] + x == PrintItems(ys) + [CLOSE_BRACKET] + y
    ensures x == y
  {
    assert PrintItems(xs) + [CLOSE_BRACKET] + x == [CLOSE_BRACKET] + x;
    assert PrintItems(ys) + [CLOSE_BRACKET] + y == [CLOSE_BRACKET] + y;
    DropCommonPrefix([CLOSE_BRACKET], x, y);
  }

  lemma {:induction false} ReadItems(xs: seq<Json>, ys: seq<Json>, x: Text, y: Text)
    requires WellFormed(Arr(xs)) && WellFormed(Arr(ys))
    requires PrintItems(xs) + [CLOSE_BRACKET] + x == PrintItems(ys) + [CLOSE_BRACKET] + y
    ensures Same(Arr(xs), Arr(ys)) && x == y
    decreases xs, 3, 0
  {
    ItemsStart(xs, x);
    ItemsStart(ys, y);
    if Hollow(xs) {
      ReadHollow(xs, ys, x, y);
    } else {
      ItemsSplit(xs, x);
      ItemsSplit(ys, y);
      ReadItem(xs[0], ys[0], ItemsTail(xs, x), ItemsTail(ys, y));
      SameItemsTail(xs, ys, x, y);
      if |xs| > 1 {
        ReadItems(xs[1..], ys[1..], x, y);
        SameArrays(xs, ys);
      }
    }
  }

  function FieldsTail(fields: seq<Field>, keys: seq<Text>, x: Text): Text
    requires keys != [] && forall k :: k in keys ==> k in Keys(fields)
  {
    if |keys| == 1 then [CLOSE_BRACE] + x else [COMMA] + (PrintFields(fields, keys[1..]) + [CLOSE_BRACE] + x)
  }

  lemma Regroup3<T>(a: seq<T>, b: seq<T>, c: seq<T>, d: seq<T>)
    ensures (a + b + c) + d == a + (b + (c + d))
  {
  }

  lemma FieldsSplit(fields: seq<Field>, keys: seq<Text>, x: Text)
    requires keys != [] && forall k :: k in keys ==> k in Keys(fields)
    ensures PrintFields(fields, keys) + [CLOSE_BRACE] + x ==
            Quote(keys[0]) + ([COLON] + (Print(ValueAt(fields, keys[0])) + FieldsTail(fields, keys, x)))
  {
    var f := PrintField(fields, keys[0]);
    Regroup3(Quote(keys[0]), [COLON], Print(ValueAt(fields, keys[0])), FieldsTail(fields, keys, x));
    if |keys| == 1 {
      assert f + [CLOSE_BRACE] + x == f + ([CLOSE_BRACE] + x);
    } else {
      Regroup5(f, [COMMA], PrintFields(fields, keys[1..]), [CLOSE_BRACE], x);
    }
  }

  lemma FieldsStart(fields: seq<Field>, keys: seq<Text>, x: Text)
    requires forall k :: k in keys ==> k in Keys(fields)
    ensures (PrintFields(fields, keys) + [CLOSE_BRACE] + x)[0] == CLOSE_BRACE <==> keys == []
  {
    if keys != [] { FieldsSplit(fields, keys, x); }
  }

  /** Equal texts of printed fields start with the same key, and go on alike from its value. */
  lemma SameFirstKey(fs: seq<Field>, ks: seq<Text>, gs: seq<Field>, ls: seq<Text>, x: Text, y: Text)
    requires ks != [] && (forall k :: k in ks ==> k in Keys(fs)) && forall k :: k in ls ==> k in Keys(gs)
    requires PrintFields(fs, ks) + [CLOSE_BRACE] + x == PrintFields(gs, ls) + [CLOSE_BRACE] + y
    ensures ls != [] && ks[0] == ls[0]
    ensures Print(ValueAt(fs, ks[0])) + FieldsTail(fs, ks, x) == Print(ValueAt(gs, ls[0])) + FieldsTail(gs, ls, y)
  {
    FieldsStart(fs, ks, x);
    FieldsStart(gs, ls, y);
    FieldsSplit(fs, ks, x);
    FieldsSplit(gs, ls, y);
    var px, py := Print(ValueAt(fs, ks[0])) + FieldsTail(fs, ks, x), Print(ValueAt(gs, ls[0])) + FieldsTail(gs, ls, y);
    QuoteUnique(ks[0], ls[0], [COLON] + px, [COLON] + py);
    DropCommonPrefix([COLON], px, py);
  }

  lemma SameTail(fs: seq<Field>, ks: seq<Text>, gs: seq<Field>, ls: seq<Text>, x: Text, y: Text)
    requires ks != [] && ls != [] && (forall k :: k in ks ==> k in Keys(fs)) && forall k :: k in ls ==> k in Keys(gs)
    requires FieldsTail(fs, ks, x) == FieldsTail(gs, ls, y)
    ensures |ks| == 1 <==> |ls| == 1
    ensures |ks| == 1 ==> x == y
    ensures |ks| > 1 ==> PrintFields(fs, ks[1..]) + [CLOSE_BRACE] + x == PrintFields(gs, ls[1..]) + [CLOSE_BRACE] + y
  {
    assert FieldsTail(fs, ks, x)[0] == FieldsTail(gs, ls, y)[0];
    if |ks| == 1 {
      DropCommonPrefix([CLOSE_BRACE], x, y);
    } else {
      DropCommonPrefix([COMMA], PrintFields(fs, ks[1..]) + [CLOSE_BRACE] + x, PrintFields(gs, ls[1..]) + [CLOSE_BRACE] + y);
    }
  }

  lemma NoFields(fs: seq<Field>, gs: seq<Field>, ls: seq<Text>, x: Text, y: Text)
    requires forall k :: k in ls ==> k in Keys(gs)
    requires PrintFields(fs, []) + [CLOSE_BRACE] + x == PrintFields(gs, ls) + [CLOSE_BRACE] + y
    ensures ls == [] && x == y
  {
    FieldsStart(fs, [], x);
    FieldsStart(gs, ls, y);
    assert PrintFields(fs, []) + [CLOSE_BRACE] + x == [CLOSE_BRACE] + x;
    assert PrintFields(gs, ls) + [CLOSE_BRACE] + y == [CLOSE_BRACE] + y;
    DropCommonPrefix([CLOSE_BRACE], x, y);
  }

  /** Lists with the same head are the same if their tails are. */
  lemma SameHeadAndTail<T>(ks: seq<T>, ls: seq<T>)
    requires ks != [] && ls != [] && ks[0] == ls[0]
    ensures ks == ls <==> ks[1..] == ls[1..]
    ensures |ks| == 1 && |ls| == 1 ==> ks == ls
    ensures forall k :: k in ks <==> k == ks[0] || k in ks[1..]
  {
    assert ks == [ks[0]] + ks[1..] && ls == [ls[0]] + ls[1..];
  }

  lemma {:induction false} ReadFields(fs: seq<Field>, ks: seq<Text>, gs: seq<Field>, ls: seq<Text>, x: Text, y: Text)
    requires WellFormed(Obj(fs)) && WellFormed(Obj(gs))
    requires forall k :: k in ks ==> k in Keys(fs)
    requires forall k :: k in ls ==> k in Keys(gs)
    requires PrintFields(fs, ks) + [CLOSE_BRACE] + x == PrintFields(gs, ls) + [CLOSE_BRACE] + y
    ensures ks == ls && x == y
    ensures forall k :: k in ks ==> Same(ValueAt(fs, k), ValueAt(gs, k))
    decreases Obj(fs), 0, |ks|
  {
    if ks == [] {
      NoFields(fs, gs, ls, x, y);
    } else {
      SameFirstKey(fs, ks, gs, ls, x, y);
      var i := IndexOfKey(fs, ks[0]);
      assert fs[i] in fs;
      ReadValue(fs[i].value, ValueAt(gs, ls[0]), FieldsTail(fs, ks, x), FieldsTail(gs, ls, y));
      SameTail(fs, ks, gs, ls, x, y);
      SameHeadAndTail(ks, ls);
      if |ks| > 1 {
        ReadFields(fs, ks[1..], gs, ls[1..], x, y);
      }
    }
  }

  lemma EnclosedText(open: CodeUnit, inner: Text, close: CodeUnit, x: Text)
    ensures [open] + inner + [close] + x == [open] + (inner + [close] + x)
  {
  }

  /** Objects without keys print as a Date does. */
  lemma ReadBraces(a: Json, b: Json, x: Text, y: Text)
    requires (a.Date? && (b.Obj? || b.Date?)) || (a.Obj? && b.Date?)
    requires WellFormed(a) && WellFormed(b) && Print(a) + x == Print(b) + y
    ensures Same(a, b) && x == y
  {
    var braces: Text := [OPEN_BRACE, CLOSE_BRACE];
    if a.Date? && b.Date? {
      DropCommonPrefix(braces, x, y);
    } else {
      var fs, u, v := if a.Obj? then a.fields else b.fields, if a.Obj? then x else y, if a.Obj? then y else x;
      var ks := SortedKeys(fs);
      EnclosedText(OPEN_BRACE, PrintFields(fs, ks), CLOSE_BRACE, u);
      assert braces + v == [OPEN_BRACE] + ([CLOSE_BRACE] + v);
      DropCommonPrefix([OPEN_BRACE], PrintFields(fs, ks) + [CLOSE_BRACE] + u, [CLOSE_BRACE] + v);
      assert PrintFields(fs, []) + [CLOSE_BRACE] + v == [CLOSE_BRACE] + v;
      NoFields(fs, fs, ks, v, u);
      SortKeeps(Keys(fs));
      assert |Keys(fs)| == |fs|;
    }
  }

  /** A printed value can be told from any other, wherever it stands inside a text. */
  lemma {:induction false} ReadValue(a: Json, b: Json, x: Text, y: Text)
    requires WellFormed(a) && WellFormed(b) && Stops(x) && Stops(y)
    requires Print(a) + x == Print(b) + y
    ensures Same(a, b) && x == y
    decreases a, 1, 0
  {
    PrintStarts(a);
    PrintStarts(b);
    assert (Print(a) + x)[0] == Print(a)[0] && (Print(b) + y)[0] == Print(b)[0];
    if a.Date? || b.Date? {
      ReadBraces(a, b, x, y);
      return;
    }
    if IsNumber(a) {
      NumberUnique(a, b, x, y);
      return;
    }
    match a
    case Str(s) => QuoteUnique(s, b.s, x, y);
    case Arr(xs) =>
      var px, py := PrintItems(xs), PrintItems(b.items);
      EnclosedText(OPEN_BRACKET, px, CLOSE_BRACKET, x);
      EnclosedText(OPEN_BRACKET, py, CLOSE_BRACKET, y);
      DropCommonPrefix([OPEN_BRACKET], px + [CLOSE_BRACKET] + x, py + [CLOSE_BRACKET] + y);
      ReadItems(xs, b.items, x, y);
    case Obj(fs) =>
      var gs := b.fields;
      var ks, ls := SortedKeys(fs), SortedKeys(gs);
      var px, py := PrintFields(fs, ks), PrintFields(gs, ls);
      EnclosedText(OPEN_BRACE, px, CLOSE_BRACE, x);
      EnclosedText(OPEN_BRACE, py, CLOSE_BRACE, y);
      DropCommonPrefix([OPEN_BRACE], px + [CLOSE_BRACE] + x, py + [CLOSE_BRACE] + y);
      ReadFields(fs, ks, gs, ls, x, y);
      SortKeeps(Keys(fs));
      SortKeeps(Keys(gs));
    case _ =>
      DropCommonPrefix(Print(a), x, y);
  }

  lemma {:induction false} SamePrintsAlike(a: Json, b: Json)
    requires WellFormed(a) && WellFormed(b) && Same(a, b)
    ensures Print(a) == Print(b)
    decreases a, 1, 0
  {
    match a
    case Arr(xs) => SameItemsPrintAlike(xs, b.items);
    case Obj(fs) =>
      if b.Date? { return; }
      SortKeeps(Keys(fs));
      SortKeeps(Keys(b.fields));
      AscendingUnique(SortedKeys(fs), SortedKeys(b.fields));
      SameFieldsPrintAlike(fs, b.fields, SortedKeys(fs));
    case _ =>
  }

  lemma {:induction false} SameItemsPrintAlike(xs: seq<Json>, ys: seq<Json>)
    requires WellFormed(Arr(xs)) && WellFormed(Arr(ys)) && Same(Arr(xs), Arr(ys))
    ensures PrintItems(xs) == PrintItems(ys)
    decreases xs, 3, 0
  {
    if !(Hollow(xs) && Hollow(ys)) {
      SamePrintsAlike(xs[0], ys[0]);
      if |xs| > 1 { SameItemsPrintAlike(xs[1..], ys[1..]); }
    }
  }

  lemma {:induction false} SameFieldsPrintAlike(fs: seq<Field>, gs: seq<Field>, keys: seq<Text>)
    requires WellFormed(Obj(fs)) && WellFormed(Obj(gs)) && Same(Obj(fs), Obj(gs))
    requires forall k :: k in keys ==> k in Keys(fs)
    ensures PrintFields(fs, keys) == PrintFields(gs, keys)
    decreases Obj(fs), 0, |keys|
  {
    if keys != [] {
      var i := IndexOfKey(fs, keys[0]);
      assert fs[i] in fs;
      SamePrintsAlike(fs[i].value, ValueAt(gs, keys[0]));
      if |keys| > 1 { SameFieldsPrintAlike(fs, gs, keys[1..]); }
    }
  }

  /** Equal canonical text is equality up to key order, with exactly the collapses of `Same`. */
  lemma CanonicalTextIdentifies(a: Json, b: Json)
    requires WellFormed(a) && WellFormed(b)
    ensures Canonical(a) == Canonical(b) <==> Same(a, b)
  {
    if Same(a, b) { SamePrintsAlike(a, b); }
    if Canonical(a) == Canonical(b) && !a.Undefined? {
      assert Print(a) + [] == Print(b) + [];
      ReadValue(a, b, [], []);
    }
  }

  /** A value that JSON text carries as it is: no `undefined`, no `NaN` or infinity, no negative zero, no Date. */
  predicate Plain(v: Json) {
    match v
    case Undefined => false
    case NonFinite => false
    case NegativeZero => false
    case Date(_) => false
    case Arr(items) => forall i :: 0 <= i < |items| ==> Plain(items[i])
    case Obj(fields) => forall i :: 0 <= i < |fields| ==> Plain(fields[i].value)
    case _ => true
  }

  /** Equality up to the order of object keys and nothing else. */
  ghost predicate EqualUpToKeyOrder(a: Json, b: Json)
    decreases a
  {
    match (a, b)
    case (Arr(xs), Arr(ys)) =>
      |xs| == |ys| && forall i :: 0 <= i < |xs| ==> EqualUpToKeyOrder(xs[i], ys[i])
    case (Obj(fs), Obj(gs)) =>
      && (forall k :: k in Keys(fs) <==> k in Keys(gs))
      && (forall k :: k in Keys(fs) ==> EqualUpToKeyOrder(fs[IndexOfKey(fs, k)].value, ValueAt(gs, k)))
    case _ => a == b
  }

  lemma PlainNotUndefined(items: seq<Json>)
    requires Plain(Arr(items))
    ensures items != [Undefined]
  {
    assert items != [] ==> items[0] != Undefined;
  }

  lemma {:induction false} PlainSameIsEqual(a: Json, b: Json)
    requires Plain(a) && Plain(b)
    ensures Same(a, b) <==> EqualUpToKeyOrder(a, b)
    decreases a
  {
    match (a, b)
    case (Arr(xs), Arr(ys)) =>
      PlainNotUndefined(xs);
      PlainNotUndefined(ys);
      forall i | 0 <= i < |xs| && i < |ys| { PlainSameIsEqual(xs[i], ys[i]); }
    case (Obj(fs), Obj(gs)) =>
      forall k | k in Keys(fs) && k in Keys(gs)
        ensures Same(fs[IndexOfKey(fs, k)].value, ValueAt(gs, k)) <==>
                EqualUpToKeyOrder(fs[IndexOfKey(fs, k)].value, ValueAt(gs, k))
      {
        assert fs[IndexOfKey(fs, k)] in fs;
        PlainSameIsEqual(fs[IndexOfKey(fs, k)].value, ValueAt(gs, k));
      }
    case _ =>
  }

  /** On JSON data, equal canonical text is exactly equality up to key order. */
  lemma CanonicalTextIdentifiesJson(a: Json, b: Json)
    requires WellFormed(a) && WellFormed(b) && Plain(a) && Plain(b)
    ensures Canonical(a) == Canonical(b) <==> EqualUpToKeyOrder(a, b)
  {
    CanonicalTextIdentifies(a, b);
    PlainSameIsEqual(a, b);
  }

  /** Outside JSON data the text does not identify the value: all four collapses happen. */
  lemma TextsCollideOutsideJson(time: int)
    ensures Canonical(Arr([Undefined])) == Canonical(Arr([])) && Arr([Undefined]) != Arr([])
    ensures Canonical(NonFinite) == Canonical(Null)
    ensures Canonical(NegativeZero) == Canonical(Zero)
    ensures Canonical(Date(time)) == Canonical(Obj([]))
  {
    var none: seq<Field> := [];
    assert Keys(none) == [] && SortedKeys(none) == [];
    assert Print(Obj(none)) == [OPEN_BRACE] + [] + [CLOSE_BRACE] == Print(Date(time));
    assert PrintItems([Undefined]) == [] == PrintItems([]);
  }
}
