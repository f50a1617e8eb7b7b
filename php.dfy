/** The slice of PHP's value semantics that the controllers rely on: truthiness,
    isset/empty, loose comparison, the (int) cast, array keys, case conversion
    and array_slice. PHP has a single array type; the model splits it into a
    list (keys 0..n-1 in order) and a keyed table. */
module Php {

  datatype Option<T> = None | Some(value: T)

  datatype Value =
    | Null
    | Bool(b: bool)
    | Int(i: int)
    | Str(s: string)
    | List(elems: seq<Value>)
    | Table(entries: map<string, Value>)

  /** Conversion to boolean, as used by `if ($x)` and `!$x`. */
  predicate Truthy(v: Value) {
    match v
    case Null => false
    case Bool(b) => b
    case Int(i) => i != 0
    case Str(s) => s != "" && s != "0"
    case List(xs) => xs != []
    case Table(m) => m != map[]
  }

  /** `empty($x)` of a value that exists. */
  predicate Empty(v: Value) {
    !Truthy(v)
  }

  /** `isset($m[$k])`: the key is present and its value is not null. */
  predicate Isset(m: map<string, Value>, k: string) {
    k in m && m[k] != Null
  }

  /** Reading `$m[$k]`: a missing key reads as null. */
  function At(m: map<string, Value>, k: string): Value {
    if k in m then m[k] else Null
  }

  /** Symfony's `ParameterBag::get($k, $default)`: the stored value when the key
      is present (even when it is null), the default otherwise. */
  function Get(m: map<string, Value>, k: string, default: Value): Value {
    if k in m then m[k] else default
  }

  /** The entries of a value that is used as a keyed array. Null is an empty
      array that PHP creates on first write; other non-table values are read
      as empty too. */
  function Entries(v: Value): map<string, Value> {
    if v.Table? then v.entries else map[]
  }

  // ---------------------------------------------------------------------
  // Numeric strings (PHP 7: optional leading white space, optional sign,
  // decimal digits with optional fraction and exponent).

  predicate IsWhite(c: char) {
    c == ' ' || c == '\t' || c == '\n' || c == '\r' || c as int == 11 || c as int == 12
  }

  predicate IsDigit(c: char) {
    '0' <= c <= '9'
  }

  function WhiteEnd(s: string, i: nat): (j: nat)
    requires i <= |s|
    ensures i <= j <= |s|
    decreases |s| - i
  {
    if i < |s| && IsWhite(s[i]) then WhiteEnd(s, i + 1) else i
  }

  function DigitsEnd(s: string, i: nat): (j: nat)
    requires i <= |s|
    ensures i <= j <= |s|
    ensures forall k :: i <= k < j ==> IsDigit(s[k])
    ensures j < |s| ==> !IsDigit(s[j])
    decreases |s| - i
  {
    if i < |s| && IsDigit(s[i]) then DigitsEnd(s, i + 1) else i
  }

  /** The value of a string of decimal digits. */
  function DecimalValue(d: string): nat
    requires forall k :: 0 <= k < |d| ==> IsDigit(d[k])
  {
    if d == [] then 0
    else
      assert IsDigit(d[|d| - 1]);
      DecimalValue(d[..|d| - 1]) * 10 + (d[|d| - 1] as int - '0' as int)
  }

  function Pow10(e: int): (r: real)
    ensures r > 0.0
    decreases if e < 0 then -e else e
  {
    if e == 0 then 1.0
    else if e > 0 then 10.0 * Pow10(e - 1)
    else Pow10(e + 1) / 10.0
  }

  /** The end of the longest numeric prefix of `s` (0 when there is none) and
      the number it denotes. */
  datatype Scan = Scan(end: nat, value: real)

  function ScanNumber(s: string): (r: Scan)
    ensures r.end <= |s|
  {
    var w := WhiteEnd(s, 0);
    var negative := w < |s| && s[w] == '-';
    var m := if w < |s| && (s[w] == '+' || s[w] == '-') then w + 1 else w;
    var ie := DigitsEnd(s, m);
    var hasPoint := ie < |s| && s[ie] == '.';
    var fe := if hasPoint then DigitsEnd(s, ie + 1) else ie;
    var fracLen := if hasPoint then fe - (ie + 1) else 0;
    if (ie - m) + fracLen == 0 then Scan(0, 0.0)
    else
      var mantissa := DecimalValue(s[m..ie] + s[ie + (if hasPoint then 1 else 0)..fe]);
      var hasE := fe + 1 < |s| && (s[fe] == 'e' || s[fe] == 'E');
      var es := if hasE && (s[fe + 1] == '+' || s[fe + 1] == '-') then fe + 2 else fe + 1;
      var ee := if hasE && es <= |s| then DigitsEnd(s, es) else es;
      var expOk := hasE && es < ee;
      var e: int := if expOk then (if s[fe + 1] == '-' then -(DecimalValue(s[es..ee]) as int) else DecimalValue(s[es..ee])) else 0;
      var magnitude := mantissa as real * Pow10(e - fracLen);
      Scan(if expOk then ee else fe, if negative then -magnitude else magnitude)
  }

  /** `is_numeric` of a string: the whole string is one number. */
  predicate IsNumericStr(s: string) {
    var r := ScanNumber(s);
    r.end > 0 && r.end == |s|
  }

  /** The number a string converts to in arithmetic and comparisons: the value
      of its longest numeric prefix, 0 when there is none. */
  function StrToNumber(s: string): real {
    ScanNumber(s).value
  }

  /** `is_numeric` of any value (floats are not modelled). */
  predicate IsNumeric(v: Value) {
    match v
    case Int(_) => true
    case Str(s) => IsNumericStr(s)
    case _ => false
  }

  // ---------------------------------------------------------------------
  // Loose comparison `==` (PHP 7.0: hexadecimal strings are not numeric).

  /** Two strings compare equal when both are numeric and denote the same
      number, or when they are identical. */
  predicate LooseEqStrings(a: string, b: string) {
    if IsNumericStr(a) && IsNumericStr(b) then StrToNumber(a) == StrToNumber(b) else a == b
  }

  /** `$v == 'literal'`. */
  predicate LooseEqStr(v: Value, s: string) {
    match v
    case Null => s == ""
    case Bool(b) => b == (s != "" && s != "0")
    case Int(i) => i as real == StrToNumber(s)
    case Str(t) => LooseEqStrings(t, s)
    case List(_) => false
    case Table(_) => false
  }

  /** `$v == n` for an integer n. */
  predicate LooseEqInt(v: Value, n: int) {
    match v
    case Null => n == 0
    case Bool(b) => b == (n != 0)
    case Int(i) => i == n
    case Str(t) => StrToNumber(t) == n as real
    case List(_) => false
    case Table(_) => false
  }

  /** `$v == null`. */
  predicate LooseNull(v: Value) {
    match v
    case Null => true
    case Bool(b) => !b
    case Int(i) => i == 0
    case Str(s) => s == ""
    case List(xs) => xs == []
    case Table(m) => m == map[]
  }

  /** `$a == $b` for any two values. Two arrays are taken to be equal only
      when they are identical. */
  predicate LooseEq(a: Value, b: Value) {
    match b
    case Null => LooseNull(a)
    case Bool(x) => Truthy(a) == x
    case Int(n) => LooseEqInt(a, n)
    case Str(s) => LooseEqStr(a, s)
    case _ =>
      match a
      case Null => LooseNull(b)
      case Bool(x) => Truthy(b) == x
      case List(_) => a == b
      case Table(_) => a == b
      case _ => false
  }

  /** Two strings that are not both numeric are loosely equal only when they
      are the same string. */
  lemma LooseEqStringsNonNumeric(a: string, b: string)
    requires !IsNumericStr(a) || !IsNumericStr(b)
    ensures LooseEqStrings(a, b) <==> a == b
  {
  }

  /** A literal that starts with a letter converts to the number 0. */
  lemma LetterStartIsZero(s: string)
    requires |s| > 0 && ('a' <= s[0] <= 'z' || 'A' <= s[0] <= 'Z')
    ensures StrToNumber(s) == 0.0 && !IsNumericStr(s)
  {
    assert WhiteEnd(s, 0) == 0;
    assert DigitsEnd(s, 0) == 0;
  }

  /** A string compares loosely equal to a literal that starts with a letter
      only when it is that literal. */
  lemma LooseEqWordLiteral(lit: string)
    requires |lit| > 0 && ('a' <= lit[0] <= 'z' || 'A' <= lit[0] <= 'Z')
    ensures StrToNumber(lit) == 0.0 && !IsNumericStr(lit)
    ensures forall t :: LooseEqStrings(t, lit) <==> t == lit
  {
    LetterStartIsZero(lit);
  }

  // ---------------------------------------------------------------------
  // Casts and conversions.

  /** Truncation toward zero, as PHP converts a float to an integer. */
  function Trunc(r: real): int {
    if r >= 0.0 then r.Floor else -((-r).Floor)
  }

  /** The integer prefix of a string, as `(int)` reads it: optional white
      space, an optional sign and decimal digits (0 when there are none). */
  function IntPrefix(s: string): int {
    var w := WhiteEnd(s, 0);
    var m := if w < |s| && (s[w] == '+' || s[w] == '-') then w + 1 else w;
    var d := DecimalValue(s[m..DigitsEnd(s, m)]);
    if w < |s| && s[w] == '-' then -(d as int) else d
  }

  /** `(int)$v` (PHP 7.0: a string is read up to its first non-digit, so an
      exponent is not honoured). */
  function IntCast(v: Value): int {
    match v
    case Null => 0
    case Bool(b) => if b then 1 else 0
    case Int(i) => i
    case Str(s) => IntPrefix(s)
    case List(xs) => if xs == [] then 0 else 1
    case Table(m) => if m == map[] then 0 else 1
  }

  function DigitChar(d: nat): char
    requires d < 10
  {
    ('0' as int + d) as char
  }

  function NatToString(n: nat): string
    decreases n
  {
    if n < 10 then [DigitChar(n)] else NatToString(n / 10) + [DigitChar(n % 10)]
  }

  function IntToString(i: int): string {
    if i < 0 then "-" + NatToString(-i) else NatToString(i)
  }

  /** A scalar passed to a built-in that takes a string; an array is refused
      (the built-in warns and returns null). */
  function StringArg(v: Value): Option<string> {
    match v
    case Null => Some("")
    case Bool(b) => Some(if b then "1" else "")
    case Int(i) => Some(IntToString(i))
    case Str(s) => Some(s)
    case List(_) => None
    case Table(_) => None
  }

  /** The array key a value stands for; an array is an illegal offset. Integer
      keys are written in decimal, so "5" and 5 name the same key, as in PHP. */
  function KeyOf(v: Value): Option<string> {
    match v
    case Null => Some("")
    case Bool(b) => Some(if b then "1" else "0")
    case Int(i) => Some(IntToString(i))
    case Str(s) => Some(s)
    case List(_) => None
    case Table(_) => None
  }

  function LowerChar(c: char): char {
    if 'A' <= c <= 'Z' then (c as int + 32) as char else c
  }

  function UpperChar(c: char): char {
    if 'a' <= c <= 'z' then (c as int - 32) as char else c
  }

  /** `strtolower` of a string (byte-wise, ASCII letters only). */
  function Lower(s: string): (r: string)
    ensures |r| == |s|
    ensures forall k :: 0 <= k < |s| ==> r[k] == LowerChar(s[k])
  {
    seq(|s|, k requires 0 <= k < |s| => LowerChar(s[k]))
  }

  /** `strtoupper` of a string. */
  function Upper(s: string): (r: string)
    ensures |r| == |s|
    ensures forall k :: 0 <= k < |s| ==> r[k] == UpperChar(s[k])
  {
    seq(|s|, k requires 0 <= k < |s| => UpperChar(s[k]))
  }

  /** `strtolower($v)`: a scalar is converted to a string first, an array
      yields null. */
  function StrToLower(v: Value): Value {
    match StringArg(v)
    case Some(s) => Str(Lower(s))
    case None => Null
  }

  function StrToUpper(v: Value): Value {
    match StringArg(v)
    case Some(s) => Str(Upper(s))
    case None => Null
  }

  // ---------------------------------------------------------------------
  // array_slice

  /** `array_slice($xs, $offset, $length)` on a list, following PHP's rules:
      a negative offset counts from the end, a null length means "to the
      end", a negative length leaves that many elements off the end. */
  function ArraySlice<T>(xs: seq<T>, offset: int, length: Option<int>): (r: seq<T>)
  {
    var n := |xs|;
    if offset > n then []
    else
      var start := if offset < 0 then (if n + offset < 0 then 0 else n + offset) else offset;
      var len := match length
        case None => n - start
        case Some(l) => if l < 0 then n - start + l else if start + l > n then n - start else l;
      if len <= 0 then [] else xs[start..start + len]
  }

  /** For a non-negative offset and length the slice holds the elements at
      offset, offset+1, ... that exist, at most `length` of them. */
  lemma ArraySliceWindow<T>(xs: seq<T>, offset: nat, length: nat)
    ensures var stop := if offset + length > |xs| then |xs| else offset + length;
            ArraySlice(xs, offset, Some(length)) == if offset >= |xs| then [] else xs[offset..stop]
  {
  }

  /** A negative offset counts back from the end of the list. */
  lemma ArraySliceFromEnd<T>(xs: seq<T>, back: nat, length: nat)
    requires 0 < back <= |xs|
    ensures var start := |xs| - back;
            var stop := if start + length > |xs| then |xs| else start + length;
            ArraySlice(xs, -(back as int), Some(length)) == xs[start..stop]
  {
  }
}
