/** The slice of JavaScript value semantics the survey code relies on:
    values and `typeof`, truthiness, `String(x)`, `Number(s)` / `parseFloat(s)`,
    `trim`, `split` on one character, `join`, `includes`, `startsWith` and
    ASCII `toLowerCase`. */
module JsCore {
  import opened Seqs

  datatype Option<T> = None | Some(value: T)

  /** A JavaScript number: NaN, or the finite decimal `mant / 10^exp`. */
  datatype Num = NaN | Dec(mant: int, exp: nat)

  /** A JavaScript value as it arrives from the database or a JSON text.
      A `Date` carries its time and the text `String(date)` renders. */
  datatype JsVal =
    | Undefined
    | Null
    | Bool(b: bool)
    | Number(n: Num)
    | Str(s: string)
    | Arr(elems: seq<JsVal>)
    | Obj(fields: seq<(string, JsVal)>)
    | Date(time: int, text: string)

  function Pow10(e: nat): (p: nat)
    ensures p >= 1
  {
    if e == 0 then 1 else 10 * Pow10(e - 1)
  }

  /** The real value of a finite number. */
  function Value(n: Num): real
    requires n.Dec?
  {
    n.mant as real / Pow10(n.exp) as real
  }

  function FromInt(i: int): Num
  {
    Dec(i, 0)
  }

  /** `!!v` */
  predicate Truthy(v: JsVal)
  {
    match v
    case Undefined => false
    case Null => false
    case Bool(b) => b
    case Number(n) => n.Dec? && n.mant != 0
    case Str(s) => s != ""
    case _ => true
  }

  /** `typeof v`; `null`, arrays, plain objects and dates are all "object". */
  function TypeOf(v: JsVal): string
  {
    match v
    case Undefined => "undefined"
    case Bool(_) => "boolean"
    case Number(_) => "number"
    case Str(_) => "string"
    case _ => "object"
  }

  // ---------------------------------------------------------------- strings

  /** The characters `String.prototype.trim` removes (white space and line terminators). */
  predicate IsWhite(c: char)
  {
    c == '\t' || c == '\n' || c == '\U{000B}' || c == '\U{000C}' || c == '\r' || c == ' '
    || c == '\U{00A0}' || c == '\U{1680}' || ('\U{2000}' <= c <= '\U{200A}')
    || c == '\U{2028}' || c == '\U{2029}' || c == '\U{202F}' || c == '\U{205F}'
    || c == '\U{3000}' || c == '\U{FEFF}'
  }

  function TrimStart(s: string): (t: string)
    ensures |t| <= |s|
    ensures |t| > 0 ==> !IsWhite(t[0])
  {
    if |s| > 0 && IsWhite(s[0]) then TrimStart(s[1..]) else s
  }

  function TrimEnd(s: string): (t: string)
    ensures |t| <= |s|
    ensures |t| > 0 ==> !IsWhite(t[|t| - 1])
    ensures |s| > 0 && !IsWhite(s[0]) ==> |t| > 0 && t[0] == s[0]
  {
    if |s| > 0 && IsWhite(s[|s| - 1]) then TrimEnd(s[..|s| - 1]) else s
  }

  /** `s.trim()` */
  function Trim(s: string): (t: string)
    ensures |t| > 0 ==> !IsWhite(t[0]) && !IsWhite(t[|t| - 1])
  {
    TrimEnd(TrimStart(s))
  }

  predicate IsBlank(s: string)
  {
    Trim(s) == ""
  }

  /** `s.split(sep)` for a one-character separator. */
  function Split(s: string, sep: char): (parts: seq<string>)
    ensures |parts| > 0
    decreases |s|
  {
    if |s| == 0 then [""]
    else
      var rest := Split(s[1..], sep);
      if s[0] == sep then [""] + rest
      else [[s[0]] + rest[0]] + rest[1..]
  }

  /** `parts.join(sep)` */
  function Join(parts: seq<string>, sep: string): string
  {
    if |parts| == 0 then ""
    else if |parts| == 1 then parts[0]
    else parts[0] + sep + Join(parts[1..], sep)
  }

  /** `s.split(sep).map(x => x.trim())` */
  function SplitTrim(s: string, sep: char): seq<string>
  {
    var parts := Split(s, sep);
    seq(|parts|, i requires 0 <= i < |parts| => Trim(parts[i]))
  }

  predicate StartsWith(s: string, prefix: string)
  {
    |prefix| <= |s| && s[..|prefix|] == prefix
  }

  predicate EndsWith(s: string, suffix: string)
  {
    |suffix| <= |s| && s[|s| - |suffix|..] == suffix
  }

  /** `s.includes(t)` */
  predicate Contains(s: string, t: string)
    decreases |s|
  {
    StartsWith(s, t) || (|s| > 0 && Contains(s[1..], t))
  }

  function LowerChar(c: char): char
  {
    if 'A' <= c <= 'Z' then (c as int + 32) as char else c
  }

  /** `s.toLowerCase()` on the ASCII letters (the only cased letters the
      compared keywords and type names contain). */
  function ToLower(s: string): (t: string)
    ensures |t| == |s|
  {
    seq(|s|, i requires 0 <= i < |s| => LowerChar(s[i]))
  }

  /** Every character of `s` except those satisfying `drop`. */
  function RemoveChars(s: string, drop: char -> bool): (t: string)
    ensures forall i :: 0 <= i < |t| ==> !drop(t[i])
    ensures |t| <= |s|
  {
    if |s| == 0 then ""
    else (if drop(s[0]) then "" else [s[0]]) + RemoveChars(s[1..], drop)
  }

  /** `s.replace(/a/g, b)` for one character `a`. */
  function ReplaceChar(s: string, a: char, b: string): string
  {
    if |s| == 0 then ""
    else (if s[0] == a then b else [s[0]]) + ReplaceChar(s[1..], a, b)
  }

  // ---------------------------------------------------------------- numbers

  predicate IsDigit(c: char)
  {
    '0' <= c <= '9'
  }

  function DigitValue(c: char): nat
  {
    if IsDigit(c) then c as int - '0' as int else 0
  }

  /** Length of the longest all-digit prefix of `s`. */
  function DigitsPrefix(s: string): (k: nat)
    ensures k <= |s|
    ensures forall i :: 0 <= i < k ==> IsDigit(s[i])
    ensures k < |s| ==> !IsDigit(s[k])
  {
    if |s| > 0 && IsDigit(s[0]) then 1 + DigitsPrefix(s[1..]) else 0
  }

  function DigitsValue(s: string): nat
  {
    if |s| == 0 then 0 else DigitsValue(s[..|s| - 1]) * 10 + DigitValue(s[|s| - 1])
  }

  function Negate(n: Num): Num
  {
    if n.NaN? then NaN else Dec(-n.mant, n.exp)
  }

  /** An exponent part `e[+-]digits` at the start of `u`: its value and length. */
  function ScanExponent(u: string): Option<(int, nat)>
  {
    if |u| == 0 || (u[0] != 'e' && u[0] != 'E') then None
    else
      var signLen := if |u| > 1 && (u[1] == '+' || u[1] == '-') then 1 else 0;
      var k := DigitsPrefix(u[1 + signLen..]);
      if k == 0 then None
      else
        var x: int := DigitsValue(u[1 + signLen..1 + signLen + k]);
        Some((if signLen == 1 && u[1] == '-' then -x else x, 1 + signLen + k))
  }

  /** The longest prefix of `t` that is a signed decimal literal
      (`[+-]digits[.digits][e[+-]digits]`, either digit run may be empty
      but not both): its number and its length. */
  function ScanNumber(t: string): (r: Option<(Num, nat)>)
    ensures r.Some? ==> r.value.0.Dec? && 0 < r.value.1 <= |t|
  {
    var signLen := if |t| > 0 && (t[0] == '+' || t[0] == '-') then 1 else 0;
    var body := t[signLen..];
    var intLen := DigitsPrefix(body);
    var hasPoint := intLen < |body| && body[intLen] == '.';
    var fracLen := if hasPoint then DigitsPrefix(body[intLen + 1..]) else 0;
    if intLen == 0 && fracLen == 0 then None
    else
      var mantEnd := if hasPoint then intLen + 1 + fracLen else intLen;
      var digits := body[..intLen] + (if hasPoint then body[intLen + 1..mantEnd] else "");
      var m := DigitsValue(digits);
      var ex := ScanExponent(body[mantEnd..]);
      var x := if ex.Some? then ex.value.0 else 0;
      var expLen := if ex.Some? && ex.value.1 <= |body| - mantEnd then ex.value.1 else 0;
      var n := if x - fracLen >= 0 then Dec(m * Pow10(x - fracLen), 0) else Dec(m, fracLen - x);
      Some((if signLen == 1 && t[0] == '-' then Negate(n) else n, signLen + mantEnd + expLen))
  }

  /** `Number(s)` for a string: blank is 0, a whole decimal literal is its
      value, anything else is NaN. */
  function ToNumber(s: string): Num
  {
    var t := Trim(s);
    if t == "" then Dec(0, 0)
    else
      match ScanNumber(t)
      case Some((n, len)) => if len == |t| then n else NaN
      case None => NaN
  }

  /** `Number(v)`: a number stays, `null` and `false` are 0, `true` is 1, a date
      is its time, anything else goes through its string. */
  function NumberOf(v: JsVal): Num
  {
    match v
    case Undefined => NaN
    case Null => Dec(0, 0)
    case Bool(b) => Dec(if b then 1 else 0, 0)
    case Number(n) => n
    case Str(s) => ToNumber(s)
    case Arr(_) => ToNumber(ToStr(v))
    case Obj(_) => NaN
    case Date(t, _) => Dec(t, 0)
  }

  /** `isNaN(v)` */
  predicate IsNaN(v: JsVal)
  {
    NumberOf(v).NaN?
  }

  /** `parseFloat(s)`: the longest decimal literal after leading white space. */
  function ParseFloat(s: string): Num
  {
    match ScanNumber(TrimStart(s))
    case Some((n, _)) => n
    case None => NaN
  }

  /** `parseInt(s, 10)` */
  function ParseInt(s: string): Num
  {
    var t := TrimStart(s);
    var signLen := if |t| > 0 && (t[0] == '+' || t[0] == '-') then 1 else 0;
    var k := DigitsPrefix(t[signLen..]);
    if k == 0 then NaN
    else
      var m: int := DigitsValue(t[signLen..signLen + k]);
      Dec(if signLen == 1 && t[0] == '-' then -m else m, 0)
  }

  function DigitChar(d: nat): char
    requires d < 10
  {
    ('0' as int + d) as char
  }

  function NatToString(n: nat): (s: string)
    ensures |s| > 0
  {
    if n < 10 then [DigitChar(n)] else NatToString(n / 10) + [DigitChar(n % 10)]
  }

  function IntToString(i: int): string
  {
    if i < 0 then "-" + NatToString(-i) else NatToString(i)
  }

  /** `n` written with the fewest fraction digits. */
  function Normalize(m: int, e: nat): (int, nat)
    decreases e
  {
    if e > 0 && m % 10 == 0 then Normalize(m / 10, e - 1) else (m, e)
  }

  /** `String(n)` in plain (non-exponent) decimal notation. */
  function NumToString(n: Num): string
  {
    match n
    case NaN => "NaN"
    case Dec(m0, e0) =>
      var p := Normalize(m0, e0);
      if p.1 == 0 then IntToString(p.0)
      else (if p.0 < 0 then "-" else "") + FractionString(if p.0 < 0 then -p.0 else p.0, p.1)
  }

  /** A run of `k` zero digits. */
  function Zeros(k: nat): string
  {
    if k == 0 then "" else "0" + Zeros(k - 1)
  }

  /** `a / 10^e` written with exactly `e` fraction digits: the last `e` digits of `a`
      after the point, the rest before it, or "0" and zeros when `a` has too few. */
  function FractionString(a: nat, e: nat): string
  {
    var digits := NatToString(a);
    if |digits| > e then digits[..|digits| - e] + "." + digits[|digits| - e..]
    else "0." + Zeros(e - |digits|) + digits
  }

  /** `String(v)` for every value but an array; an array reaching this point sits
      three levels deep, where the model prints it as "". */
  function ScalarStr(v: JsVal): string
  {
    match v
    case Undefined => "undefined"
    case Null => "null"
    case Bool(b) => if b then "true" else "false"
    case Number(n) => NumToString(n)
    case Str(s) => s
    case Arr(_) => ""
    case Obj(_) => "[object Object]"
    case Date(_, text) => text
  }

  /** An element of an array nested in an array: `undefined` and `null` print as "". */
  function InnerElementStr(e: JsVal): string
  {
    if e.Undefined? || e.Null? then "" else ScalarStr(e)
  }

  /** `String(inner)` for an array that is itself an element of an array. */
  function InnerArrayStr(es: seq<JsVal>): string
  {
    if |es| == 0 then ""
    else if |es| == 1 then InnerElementStr(es[0])
    else InnerElementStr(es[0]) + "," + InnerArrayStr(es[1..])
  }

  /** One element inside `String(array)`: `undefined` and `null` print as "",
      a nested array prints its own elements joined by ",". */
  function ElementStr(e: JsVal): string
  {
    if e.Undefined? || e.Null? then ""
    else if e.Arr? then InnerArrayStr(e.elems)
    else ScalarStr(e)
  }

  /** `String(array)`: the elements joined by ",". */
  function ArrayToStr(es: seq<JsVal>): string
  {
    if |es| == 0 then ""
    else if |es| == 1 then ElementStr(es[0])
    else ElementStr(es[0]) + "," + ArrayToStr(es[1..])
  }

  /** `String(v)` */
  function ToStr(v: JsVal): string
  {
    if v.Arr? then ArrayToStr(v.elems) else ScalarStr(v)
  }

  // ---------------------------------------------------------------- facts

  /** Splitting and re-joining on the same separator gives the text back. */
  lemma {:induction false} SplitJoin(s: string, sep: char)
    ensures Join(Split(s, sep), [sep]) == s
    decreases |s|
  {
    if |s| > 0 {
      var rest := Split(s[1..], sep);
      SplitJoin(s[1..], sep);
      if s[0] == sep {
        assert Split(s, sep) == [""] + rest;
        assert ([""] + rest)[1..] == rest;
      } else {
        var parts := Split(s, sep);
        assert parts == [[s[0]] + rest[0]] + rest[1..];
        if |rest| == 1 {
          assert parts == [[s[0]] + rest[0]];
        } else {
          assert parts[1..] == rest[1..];
          assert rest[1..] == rest[1..];
        }
      }
      assert s == [s[0]] + s[1..];
    }
  }

  /** `split` yields one more part than there are separators, and no part
      contains the separator. */
  lemma {:induction false} SplitParts(s: string, sep: char)
    ensures |Split(s, sep)| == Count(s, sep) + 1
    ensures forall i :: 0 <= i < |Split(s, sep)| ==> sep !in Split(s, sep)[i]
    decreases |s|
  {
    if |s| > 0 {
      SplitParts(s[1..], sep);
      CountCons(s, sep);
    }
  }

  lemma {:induction false} CountCons<T>(s: seq<T>, x: T)
    requires |s| > 0
    ensures Count(s, x) == (if s[0] == x then 1 else 0) + Count(s[1..], x)
    decreases |s|
  {
    if |s| > 1 {
      CountCons(s[..|s| - 1], x);
      assert s[..|s| - 1][1..] == s[1..][..|s[1..]| - 1];
      assert s[..|s| - 1][0] == s[0];
    } else {
      assert s[1..] == [];
      assert s[..0] == [];
    }
  }

  /** A text without the separator is one part. */
  lemma SplitNoSep(s: string, sep: char)
    requires sep !in s
    ensures Split(s, sep) == [s]
    decreases |s|
  {
    if |s| > 0 {
      SplitNoSep(s[1..], sep);
      assert [s[0]] + s[1..] == s;
    }
  }

  lemma ToLowerIdempotent(s: string)
    ensures ToLower(ToLower(s)) == ToLower(s)
  {
  }

  /** A part without the separator, then the separator, splits off as one part. */
  lemma {:induction false} SplitAfterPart(a: string, sep: char, r: string)
    requires sep !in a
    ensures Split(a + [sep] + r, sep) == [a] + Split(r, sep)
    decreases |a|
  {
    if |a| == 0 {
      assert a + [sep] + r == [sep] + r;
      assert ([sep] + r)[1..] == r;
    } else {
      var t := a + [sep] + r;
      assert t[1..] == a[1..] + [sep] + r;
      assert sep !in a[1..] by { assert a == [a[0]] + a[1..]; }
      SplitAfterPart(a[1..], sep, r);
      assert [a[0]] + a[1..] == a;
    }
  }

  /** Joining parts without the separator and splitting again gives the parts back. */
  lemma {:induction false} JoinSplit(parts: seq<string>, sep: char)
    requires |parts| > 0
    requires forall i :: 0 <= i < |parts| ==> sep !in parts[i]
    ensures Split(Join(parts, [sep]), sep) == parts
    decreases |parts|
  {
    if |parts| == 1 {
      SplitNoSep(parts[0], sep);
    } else {
      JoinSplit(parts[1..], sep);
      SplitAfterPart(parts[0], sep, Join(parts[1..], [sep]));
      assert [parts[0]] + parts[1..] == parts;
    }
  }

  /** A character in neither the parts nor the separator is not in their join. */
  lemma {:induction false} JoinWithout(parts: seq<string>, sep: string, c: char)
    requires c !in sep
    requires forall i :: 0 <= i < |parts| ==> c !in parts[i]
    ensures c !in Join(parts, sep)
    decreases |parts|
  {
    if |parts| > 1 {
      JoinWithout(parts[1..], sep, c);
    }
  }

  /** Reading back the decimal text of a natural number gives the number. */
  lemma {:induction false} NatToStringValue(n: nat)
    ensures DigitsValue(NatToString(n)) == n
    ensures forall i :: 0 <= i < |NatToString(n)| ==> IsDigit(NatToString(n)[i])
    decreases n
  {
    var s := NatToString(n);
    if n >= 10 {
      NatToStringValue(n / 10);
      assert s[..|s| - 1] == NatToString(n / 10);
    }
  }

  /** Different integers are written differently. */
  lemma IntToStringInjective(x: int, y: int)
    ensures IntToString(x) == IntToString(y) ==> x == y
  {
    SignShown(x);
    SignShown(y);
    if IntToString(x) == IntToString(y) {
      var a := if x < 0 then -x else x;
      var b := if y < 0 then -y else y;
      NatToStringValue(a);
      NatToStringValue(b);
      if x < 0 {
        assert NatToString(a) == IntToString(x)[1..] == IntToString(y)[1..] == NatToString(b);
      }
    }
  }

  /** The text of an integer starts with `-` exactly when the integer is negative. */
  lemma SignShown(x: int)
    ensures IntToString(x) != "" && (IntToString(x)[0] == '-' <==> x < 0)
  {
    var a := if x < 0 then -x else x;
    NatToStringValue(a);
  }

  /** `parseInt` of a run of digits is the number they write. */
  lemma ParseIntDigits(s: string)
    requires |s| > 0 && forall i :: 0 <= i < |s| ==> IsDigit(s[i])
    ensures ParseInt(s) == Dec(DigitsValue(s), 0)
  {
    assert !IsWhite(s[0]);
    assert TrimStart(s) == s;
    assert DigitsPrefix(s) == |s|;
    assert s[0..|s|] == s;
  }
}
