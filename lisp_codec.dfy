/** Conversion between JavaScript strings and booleans and their Lisp source text
    (lib/utils.js; the same two string functions are repeated in lib/client.js). */
module LispCodec {
  import opened Sexp
  import opened JsText

  // ---------------------------------------------------------------------------
  // Strings

  /** One global regular-expression replacement of a single character,
      `s.replace(/c/g, rep)`. */
  function ReplaceAll(s: string, c: char, rep: string): (r: string)
    ensures c !in s ==> r == s
  {
    if |s| == 0 then ""
    else (if s[0] == c then rep else [s[0]]) + ReplaceAll(s[1..], c, rep)
  }

  lemma {:induction false} ReplaceAllAppend(a: string, b: string, c: char, rep: string)
    ensures ReplaceAll(a + b, c, rep) == ReplaceAll(a, c, rep) + ReplaceAll(b, c, rep)
  {
    if |a| > 0 {
      assert (a + b)[1..] == a[1..] + b;
      ReplaceAllAppend(a[1..], b, c, rep);
    } else {
      assert a + b == b;
    }
  }

  /** The escape of one character inside a Lisp string literal. */
  function EscapeChar(c: char): string {
    if c == '\\' then "\\\\" else if c == '"' then "\\\"" else [c]
  }

  /** Reference escaping, one character at a time. */
  function Escape(s: string): string {
    if |s| == 0 then "" else EscapeChar(s[0]) + Escape(s[1..])
  }

  /** `to_lisp_string`: backslashes doubled first, then quotes escaped, then the
      whole wrapped in double quotes. */
  function ToLispString(str: string): (r: string)
    ensures |r| >= 2 && r[0] == '"' && r[|r| - 1] == '"'
  {
    "\"" + ReplaceAll(ReplaceAll(str, '\\', "\\\\"), '"', "\\\"") + "\""
  }

  /** Escaping backslashes before quotes, in two passes, is the one-pass escape. */
  lemma {:induction false} TwoPassIsEscape(s: string)
    ensures ReplaceAll(ReplaceAll(s, '\\', "\\\\"), '"', "\\\"") == Escape(s)
  {
    if |s| > 0 {
      var c := s[0];
      var head := if c == '\\' then "\\\\" else [c];
      assert ReplaceAll(s, '\\', "\\\\") == head + ReplaceAll(s[1..], '\\', "\\\\");
      ReplaceAllAppend(head, ReplaceAll(s[1..], '\\', "\\\\"), '"', "\\\"");
      TwoPassIsEscape(s[1..]);
      if c == '\\' {
        assert ReplaceAll(head, '"', "\\\"") == "\\\\";
      } else if c == '"' {
        assert ReplaceAll(head, '"', "\\\"") == "\\\"" + ReplaceAll("", '"', "\\\"");
      } else {
        assert ReplaceAll(head, '"', "\\\"") == [c] + ReplaceAll("", '"', "\\\"");
      }
    }
  }

  /** The regular-expression replacement `/\\("|\\)/g` by "$1", scanning left to
      right: `\"` becomes `"`, `\\` becomes `\`, every other character is copied. */
  function Unescape(s: string): (r: string)
    ensures |r| <= |s|
  {
    if |s| >= 2 && s[0] == '\\' && (s[1] == '"' || s[1] == '\\') then [s[1]] + Unescape(s[2..])
    else if |s| == 0 then ""
    else [s[0]] + Unescape(s[1..])
  }

  /** `from_lisp_string`: drop the first and last character, then unescape. */
  function FromLispString(raw: string): (r: string)
    ensures |raw| >= 2 ==> |r| <= |raw| - 2
    ensures |raw| < 2 ==> r == ""
  {
    Unescape(DropEnds(raw))
  }

  /** Number of characters that need an escape. */
  function CountSpecial(s: string): nat {
    if |s| == 0 then 0
    else (if s[0] == '\\' || s[0] == '"' then 1 else 0) + CountSpecial(s[1..])
  }

  /** A well-formed literal body: plain characters other than `"` and `\`, and the
      two-character escapes `\\` and `\"`, read left to right. */
  predicate Tokenized(b: string) {
    if |b| == 0 then true
    else if b[0] == '\\' then |b| >= 2 && (b[1] == '\\' || b[1] == '"') && Tokenized(b[2..])
    else b[0] != '"' && Tokenized(b[1..])
  }

  lemma {:induction false} EscapeFacts(s: string)
    ensures Tokenized(Escape(s))
    ensures |Escape(s)| == |s| + CountSpecial(s)
    ensures Unescape(Escape(s)) == s
  {
    if |s| > 0 {
      var c, t := s[0], s[1..];
      var x := Escape(t);
      EscapeFacts(t);
      var e := EscapeChar(c) + x;
      if c == '\\' || c == '"' {
        assert e[0] == '\\' && e[1] == c && e[2..] == x;
      } else {
        assert e[0] == c && e[1..] == x;
      }
      assert s == [c] + t;
    }
  }

  /** Every well-formed body is the escape of exactly one string: its unescaping. */
  lemma {:induction false} TokenizedIsEscape(b: string)
    requires Tokenized(b)
    ensures Escape(Unescape(b)) == b
  {
    if |b| > 0 {
      if b[0] == '\\' {
        TokenizedIsEscape(b[2..]);
        assert Unescape(b) == [b[1]] + Unescape(b[2..]);
        assert ([b[1]] + Unescape(b[2..]))[1..] == Unescape(b[2..]);
        assert b == [b[0], b[1]] + b[2..];
      } else {
        TokenizedIsEscape(b[1..]);
        assert ([b[0]] + Unescape(b[1..]))[1..] == Unescape(b[1..]);
        assert b == [b[0]] + b[1..];
      }
    }
  }

  /** In a well-formed body every double quote sits right after a backslash. */
  lemma {:induction false} TokenizedQuotesEscaped(b: string, i: nat)
    requires Tokenized(b) && i < |b| && b[i] == '"'
    ensures i > 0 && b[i - 1] == '\\'
  {
    if b[0] == '\\' {
      if i >= 2 {
        TokenizedQuotesEscaped(b[2..], i - 2);
      }
    } else {
      TokenizedQuotesEscaped(b[1..], i - 1);
    }
  }

  /** The shape of `to_lisp_string(s)`: quoted, an escaped body, longer by two
      plus one for each backslash and quote. */
  lemma ToLispStringShape(s: string)
    ensures var r := ToLispString(s);
      && r == "\"" + Escape(s) + "\""
      && |r| == |s| + 2 + CountSpecial(s)
      && Tokenized(r[1..|r| - 1])
  {
    TwoPassIsEscape(s);
    EscapeFacts(s);
    var r := ToLispString(s);
    assert r[1..|r| - 1] == Escape(s);
  }

  /** Reading back a written string gives the original. */
  lemma LispStringRoundTrip(s: string)
    ensures FromLispString(ToLispString(s)) == s
  {
    TwoPassIsEscape(s);
    EscapeFacts(s);
    var r := ToLispString(s);
    assert DropEnds(r) == Escape(s);
  }

  /** Text without backslashes passes through `Unescape` unchanged, whatever follows. */
  lemma {:induction false} UnescapePlainPrefix(p: string, t: string)
    requires '\\' !in p
    ensures Unescape(p + t) == p + Unescape(t)
  {
    if |p| > 0 {
      assert '\\' !in p[1..] by {
        forall i | 0 <= i < |p[1..]| ensures p[1..][i] != '\\' {
          assert p[1..][i] == p[i + 1];
        }
      }
      UnescapePlainPrefix(p[1..], t);
      assert (p + t)[1..] == p[1..] + t;
      assert p == [p[0]] + p[1..];
    } else {
      assert p + t == t;
    }
  }

  /** An escaped quote reads back as the quote. */
  lemma UnescapeQuote(t: string)
    ensures Unescape("\\\"" + t) == "\"" + Unescape(t)
  {
    assert ("\\\"" + t)[2..] == t;
  }

  /** The printed REPL result `(2 "4")`, as Swank quotes it, reads back with
      its quotes unescaped. */
  lemma UnquoteReplResult(raw: string)
    requires raw == "\"(2 \\\"4\\\")\""
    ensures FromLispString(raw) == "(2 \"4\")"
  {
    var q, eq := "\"", "\\\"";
    var head, digit, tail := "(2 ", "4", ")";
    var t1 := eq + tail;
    var t2 := digit + t1;
    var t3 := eq + t2;
    assert raw == q + (head + t3) + q;
    assert DropEnds(raw) == head + t3 by {
      assert raw[1..|raw| - 1] == head + t3;
    }
    UnescapePlain(tail);
    UnescapeQuote(tail);
    UnescapePlainPrefix(digit, t1);
    UnescapeQuote(t2);
    UnescapePlainPrefix(head, t3);
    assert head + (q + (digit + (q + tail))) == "(2 \"4\")";
  }

  /** A quoted newline reads back as the newline. */
  lemma UnquoteNewline()
    ensures FromLispString("\"\n\"") == "\n"
  {
  }

  /** A backslash that starts any other pair is left in place. */
  lemma UnescapeKeepsOtherPairs(c: char, t: string)
    requires c != '"' && c != '\\'
    ensures Unescape(['\\', c] + t) == ['\\', c] + Unescape(t)
  {
    var s := ['\\', c] + t;
    assert s[1..] == [c] + t;
    assert ([c] + t)[1..] == t;
  }

  /** Text without backslashes is not changed by unescaping. */
  lemma {:induction false} UnescapePlain(s: string)
    requires '\\' !in s
    ensures Unescape(s) == s
  {
    if |s| > 0 {
      assert s[0] != '\\';
      assert '\\' !in s[1..] by {
        forall i | 0 <= i < |s[1..]| ensures s[1..][i] != '\\' {
          assert s[1..][i] == s[i + 1];
        }
      }
      UnescapePlain(s[1..]);
      assert s == [s[0]] + s[1..];
    }
  }

  // ---------------------------------------------------------------------------
  // Booleans

  /** `from_lisp_bool`: false only for the symbol nil, in any case. */
  function FromLispBool(n: Node): (b: bool)
    ensures !n.Sym? ==> b
  {
    !(n.Sym? && Lower(n.src) == "nil")
  }

  /** `to_lisp_bool`: written as a symbol, it reads back as the same boolean. */
  function ToLispBool(b: bool): (r: string)
    ensures FromLispBool(Sym(r)) == b
    ensures Upper(r) == r
  {
    if b then "T" else "NIL"
  }

  /** The eight spellings of nil. */
  function NilSpellings(): set<string> {
    {"nil", "niL", "nIl", "nIL", "Nil", "NiL", "NIl", "NIL"}
  }

  /** `from_lisp_bool` is false exactly for a symbol spelled nil in any mix of cases. */
  lemma FromLispBoolFalseExactlyNil(n: Node)
    ensures !FromLispBool(n) <==> n.Sym? && n.src in NilSpellings()
  {
    if n.Sym? {
      var s := n.src;
      if Lower(s) == "nil" {
        assert |s| == 3;
        assert LowerChar(s[0]) == 'n' && LowerChar(s[1]) == 'i' && LowerChar(s[2]) == 'l';
        assert s[0] in "nN" && s[1] in "iI" && s[2] in "lL";
        assert s == [s[0], s[1], s[2]];
      }
      if s in NilSpellings() {
        assert Lower(s) == "nil";
      }
    }
  }
}
