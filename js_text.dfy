/** The few JavaScript string and number operations the client relies on:
    ASCII case mapping (`toLowerCase`, `toUpperCase`), `slice`, `substring`,
    `String(n)` of a non-negative integer, `Number(s)` and `parseInt(s)`. */
module JsText {
  import opened Wrappers

  // ---------------------------------------------------------------------------
  // Case mapping (ASCII letters only)

  function LowerChar(c: char): char {
    if 'A' <= c <= 'Z' then (c as int + 32) as char else c
  }

  function UpperChar(c: char): char {
    if 'a' <= c <= 'z' then (c as int - 32) as char else c
  }

  /** `s.toLowerCase()`: every letter mapped, nothing else touched, length kept. */
  function Lower(s: string): (r: string)
    ensures |r| == |s|
    ensures forall i :: 0 <= i < |s| ==> r[i] == LowerChar(s[i])
  {
    seq(|s|, i requires 0 <= i < |s| => LowerChar(s[i]))
  }

  /** `s.toUpperCase()`. */
  function Upper(s: string): (r: string)
    ensures |r| == |s|
    ensures forall i :: 0 <= i < |s| ==> r[i] == UpperChar(s[i])
  {
    seq(|s|, i requires 0 <= i < |s| => UpperChar(s[i]))
  }

  /** Text without capital letters is its own lower-case form. */
  lemma LowerNoCapitals(s: string)
    requires forall i :: 0 <= i < |s| ==> !('A' <= s[i] <= 'Z')
    ensures Lower(s) == s
  {
  }

  /** Two characters agree up to case exactly when their lower-case forms agree
      exactly when their upper-case forms agree. */
  lemma CaseFoldAgree(a: char, b: char)
    ensures LowerChar(a) == LowerChar(b) <==> UpperChar(a) == UpperChar(b)
  {
  }

  /** Comparing `toUpperCase()` with "NIL" and `toLowerCase()` with "nil" is the same test. */
  lemma UpperNilIffLowerNil(s: string)
    ensures Upper(s) == "NIL" <==> Lower(s) == "nil"
  {
    if Lower(s) == "nil" {
      assert |s| == 3;
      forall i | 0 <= i < 3 ensures Upper(s)[i] == "NIL"[i] {
        CaseFoldAgree(s[i], "nil"[i]);
      }
    }
    if Upper(s) == "NIL" {
      assert |s| == 3;
      forall i | 0 <= i < 3 ensures Lower(s)[i] == "nil"[i] {
        CaseFoldAgree(s[i], "NIL"[i]);
      }
    }
  }

  // ---------------------------------------------------------------------------
  // slice and substring

  /** `s.slice(1)`. */
  function DropFirst(s: string): (r: string)
    ensures |s| > 0 ==> s == [s[0]] + r
    ensures |s| == 0 ==> r == ""
  {
    if |s| == 0 then "" else s[1..]
  }

  /** `s.slice(1, -1)`: both ends dropped; strings shorter than two become "". */
  function DropEnds(s: string): (r: string)
    ensures |s| >= 2 ==> s == [s[0]] + r + [s[|s| - 1]]
    ensures |s| < 2 ==> r == ""
  {
    if |s| < 2 then "" else s[1..|s| - 1]
  }

  function Clamp(x: int, len: nat): (r: nat)
    ensures r <= len
  {
    if x < 0 then 0 else if x > len then len else x
  }

  /** `s.substring(a, b)`: both bounds clamped into the string, swapped when reversed. */
  function Substring(s: string, a: int, b: int): (r: string)
    ensures |r| <= |s|
    ensures 0 <= a <= b <= |s| ==> r == s[a..b]
  {
    var x, y := Clamp(a, |s|), Clamp(b, |s|);
    if x <= y then s[x..y] else s[y..x]
  }

  // ---------------------------------------------------------------------------
  // Decimal digits

  predicate IsDigit(c: char) {
    '0' <= c <= '9'
  }

  predicate AllDigits(s: string) {
    forall i :: 0 <= i < |s| ==> IsDigit(s[i])
  }

  function DigitChar(d: nat): (c: char)
    requires d < 10
    ensures IsDigit(c)
  {
    ('0' as int + d) as char
  }

  function DigitValue(c: char): nat
    requires IsDigit(c)
  {
    c as int - '0' as int
  }

  /** Value of a run of decimal digits, read left to right. */
  function DecValue(s: string): nat
    requires AllDigits(s)
  {
    if |s| == 0 then 0 else DecValue(s[..|s| - 1]) * 10 + DigitValue(s[|s| - 1])
  }

  /** `String(n)` for a non-negative integer: its shortest decimal form. */
  function Decimal(n: nat): (r: string)
    ensures |r| >= 1 && AllDigits(r)
    ensures |r| > 1 ==> r[0] != '0'
    ensures DecValue(r) == n
  {
    if n < 10 then [DigitChar(n)]
    else
      var p := Decimal(n / 10);
      var r := p + [DigitChar(n % 10)];
      assert r[..|r| - 1] == p;
      r
  }

  /** The strings that `String(n)` produces: non-empty digits without a leading zero. */
  predicate Canonical(s: string) {
    |s| >= 1 && AllDigits(s) && (|s| > 1 ==> s[0] != '0')
  }

  /** Reads back a request id from the wire: `id in req_table` holds in the source
      exactly for a string equal to `String(k)` of a stored key `k`. */
  function ParseId(s: string): (r: Option<nat>)
    ensures r.Some? <==> Canonical(s)
  {
    if Canonical(s) then Some(DecValue(s)) else None
  }

  lemma {:induction false} DecValueAtLeastFirst(s: string)
    requires |s| >= 1 && AllDigits(s)
    ensures DecValue(s) >= DigitValue(s[0])
  {
    if |s| > 1 {
      DecValueAtLeastFirst(s[..|s| - 1]);
    }
  }

  /** A canonical digit string is the decimal form of its own value. */
  lemma {:induction false} CanonicalIsDecimal(s: string)
    requires Canonical(s)
    ensures Decimal(DecValue(s)) == s
  {
    if |s| > 1 {
      var p := s[..|s| - 1];
      assert p[0] == s[0];
      DecValueAtLeastFirst(p);
      CanonicalIsDecimal(p);
      var n := DecValue(s);
      assert n / 10 == DecValue(p) && n % 10 == DigitValue(s[|s| - 1]);
      assert s == p + [s[|s| - 1]];
    }
  }

  /** A wire id names request `n` exactly when it is spelled `String(n)`. */
  lemma ParseIdExact(s: string, n: nat)
    ensures ParseId(s) == Some(n) <==> s == Decimal(n)
  {
    if ParseId(s) == Some(n) {
      CanonicalIsDecimal(s);
    }
  }

  // ---------------------------------------------------------------------------
  // Numbers

  /** A JavaScript number as far as this client uses one: an integer or NaN. */
  datatype JsNumber = Int(i: int) | NaN

  /** `+` on numbers: NaN absorbs. */
  function Add(a: JsNumber, b: JsNumber): (r: JsNumber)
    ensures r.Int? <==> a.Int? && b.Int?
    ensures r.Int? ==> r.i == a.i + b.i
  {
    match (a, b)
    case (Int(x), Int(y)) => Int(x + y)
    case _ => NaN
  }

  /** `Number(s)` on the strings the protocol carries: an optional minus sign and
      decimal digits give their value, the empty string gives 0, anything else NaN. */
  function ToNumber(s: string): (r: JsNumber)
    ensures Canonical(s) ==> r == Int(DecValue(s))
  {
    if |s| == 0 then Int(0)
    else if |s| >= 2 && s[0] == '-' && AllDigits(s[1..]) then Int(-(DecValue(s[1..]) as int))
    else if AllDigits(s) then Int(DecValue(s))
    else NaN
  }

  /** `Number(x)` for a value that may be undefined: `Number(undefined)` is NaN. */
  function ToNumberOpt(x: Option<string>): (r: JsNumber)
    ensures x.None? ==> r == NaN
  {
    match x
    case None => NaN
    case Some(s) => ToNumber(s)
  }

  /** Length of the leading run of decimal digits. */
  function DigitRun(s: string): (k: nat)
    ensures k <= |s| && AllDigits(s[..k])
    ensures k < |s| ==> !IsDigit(s[k])
  {
    if |s| == 0 || !IsDigit(s[0]) then 0
    else
      var k := 1 + DigitRun(s[1..]);
      assert s[..k] == [s[0]] + s[1..][..k - 1];
      k
  }

  /** `parseInt(s)`: the value of the leading digits (after an optional minus sign),
      NaN when there are none; `parseInt(undefined)` reads "undefined" and is NaN. */
  function ParseInt(x: Option<string>): (r: JsNumber)
    ensures x.Some? && Canonical(x.value) ==> r == Int(DecValue(x.value))
  {
    match x
    case None => NaN
    case Some(s) =>
      if |s| >= 1 && s[0] == '-' then
        var k := DigitRun(s[1..]);
        if k == 0 then NaN else Int(-(DecValue(s[1..][..k]) as int))
      else
        var k := DigitRun(s);
        assert AllDigits(s) ==> k == |s| && s[..k] == s;
        if k == 0 then NaN else Int(DecValue(s[..k]))
  }
}
