/**
 * The two pieces of Python's standard string handling that configuration
 * lines go through: `str.split()` with no separator, and `int(s)` /
 * `int(s, 16)` on the resulting fields.
 */
module Text {
  import opened Wrappers

  /** `str.isspace()` for one character: the characters `str.split()` separates on. */
  predicate IsSpace(c: char)
  {
    c == ' ' || c == '\t' || c == '\n' || c == '\r' || c == '\U{000B}' || c == '\U{000C}'
    || ('\U{001C}' <= c <= '\U{001F}') || c == '\U{0085}' || c == '\U{00A0}' || c == '\U{1680}'
    || ('\U{2000}' <= c <= '\U{200A}') || c == '\U{2028}' || c == '\U{2029}' || c == '\U{202F}'
    || c == '\U{205F}' || c == '\U{3000}'
  }

  /** A field of a split line: non-empty and free of whitespace. */
  predicate IsWord(w: string)
  {
    w != [] && forall k :: 0 <= k < |w| ==> !IsSpace(w[k])
  }

  /** Length of the run of non-whitespace characters that starts the string. */
  function TokenLen(s: string): (n: nat)
    ensures n <= |s|
  {
    if s == [] || IsSpace(s[0]) then 0 else 1 + TokenLen(s[1..])
  }

  /** The run is free of whitespace and ends at whitespace or at the end. */
  lemma {:induction false} TokenLenSpec(s: string)
    ensures forall k :: 0 <= k < TokenLen(s) ==> !IsSpace(s[k])
    ensures TokenLen(s) < |s| ==> IsSpace(s[TokenLen(s)])
  {
    if s != [] && !IsSpace(s[0]) {
      TokenLenSpec(s[1..]);
    }
  }

  /** `s.split()`: the maximal runs of non-whitespace characters, in order. */
  function Fields(s: string): seq<string>
    decreases |s|
  {
    if s == [] then []
    else if IsSpace(s[0]) then Fields(s[1..])
    else
      var n := TokenLen(s);
      [s[..n]] + Fields(s[n..])
  }

  /** Every field is a non-empty run without whitespace. */
  lemma {:induction false} FieldsAreWords(s: string)
    ensures forall i :: 0 <= i < |Fields(s)| ==> IsWord(Fields(s)[i])
    decreases |s|
  {
    if s != [] {
      if IsSpace(s[0]) {
        FieldsAreWords(s[1..]);
      } else {
        var n := TokenLen(s);
        TokenLenSpec(s);
        FieldsAreWords(s[n..]);
        assert Fields(s) == [s[..n]] + Fields(s[n..]);
      }
    }
  }

  /** The fields joined back with single spaces. */
  function Unwords(fs: seq<string>): string
  {
    if |fs| == 0 then ""
    else if |fs| == 1 then fs[0]
    else fs[0] + " " + Unwords(fs[1..])
  }

  /** The token length is determined by where the first whitespace is. */
  lemma {:induction false} TokenLenAt(s: string, n: nat)
    requires n <= |s|
    requires forall k :: 0 <= k < n ==> !IsSpace(s[k])
    requires n < |s| ==> IsSpace(s[n])
    ensures TokenLen(s) == n
  {
    if n > 0 {
      TokenLenAt(s[1..], n - 1);
    }
  }

  /** Splitting at a whitespace character: the fields of both sides, concatenated. */
  lemma {:induction false} FieldsSplitAt(s: string, c: char, t: string)
    requires IsSpace(c)
    ensures Fields(s + [c] + t) == Fields(s) + Fields(t)
    decreases |s|
  {
    var x := s + [c] + t;
    if s == [] {
      assert x[1..] == t;
    } else if IsSpace(s[0]) {
      assert x[1..] == s[1..] + [c] + t;
      FieldsSplitAt(s[1..], c, t);
    } else {
      var n := TokenLen(s);
      TokenLenSpec(s);
      TokenLenAt(x, n);
      assert x[..n] == s[..n];
      assert x[n..] == s[n..] + [c] + t;
      FieldsSplitAt(s[n..], c, t);
    }
  }

  /** A single word splits into itself. */
  lemma FieldsOfWord(w: string)
    requires IsWord(w)
    ensures Fields(w) == [w]
  {
    TokenLenAt(w, |w|);
    assert w[..|w|] == w;
    assert w[|w|..] == [];
  }

  /** Splitting undoes joining with spaces: `" ".join(fs).split() == fs` for fields without whitespace. */
  lemma {:induction false} FieldsUnwords(fs: seq<string>)
    requires forall i :: 0 <= i < |fs| ==> IsWord(fs[i])
    ensures Fields(Unwords(fs)) == fs
  {
    if |fs| == 1 {
      FieldsOfWord(fs[0]);
    } else if |fs| > 1 {
      FieldsSplitAt(fs[0], ' ', Unwords(fs[1..]));
      FieldsOfWord(fs[0]);
      FieldsUnwords(fs[1..]);
    }
  }

  /** Joining a word in front of at least one more field puts one space between. */
  lemma UnwordsCons(w: string, rest: seq<string>)
    requires rest != []
    ensures Unwords([w] + rest) == w + " " + Unwords(rest)
  {
    assert ([w] + rest)[1..] == rest;
  }

  /** Letters and digits are not whitespace. */
  lemma AlnumWord(w: string)
    requires w != []
    requires forall k :: 0 <= k < |w| ==> '0' <= w[k] <= '9' || 'A' <= w[k] <= 'Z'
    ensures IsWord(w)
  {
  }

  /** The fields of the example line `KJFK 0 58 0 1 2 KLGA`. */
  const EXAMPLE_FIELDS: seq<string> := ["KJFK", "0", "58", "0", "1", "2", "KLGA"]

  /** The example line splits back into its fields. */
  lemma ExampleFields()
    ensures Fields(Unwords(EXAMPLE_FIELDS)) == EXAMPLE_FIELDS
  {
    var fs := EXAMPLE_FIELDS;
    AlnumWord(fs[0]);
    AlnumWord(fs[1]);
    AlnumWord(fs[2]);
    AlnumWord(fs[3]);
    AlnumWord(fs[4]);
    AlnumWord(fs[5]);
    AlnumWord(fs[6]);
    FieldsUnwords(fs);
  }

  /** Joined with spaces, the example fields are the example line. */
  lemma ExampleText()
    ensures Unwords(EXAMPLE_FIELDS) == "KJFK 0 58 0 1 2 KLGA"
  {
    var fs := EXAMPLE_FIELDS;
    UnwordsCons(fs[5], fs[6..]);
    UnwordsCons(fs[4], fs[5..]);
    UnwordsCons(fs[3], fs[4..]);
    UnwordsCons(fs[2], fs[3..]);
    UnwordsCons(fs[1], fs[2..]);
    UnwordsCons(fs[0], fs[1..]);
    assert fs == [fs[0]] + fs[1..];
  }

  /** The line terminator kept by `readlines()` adds no field. */
  lemma FieldsWithNewline(line: string)
    ensures Fields(line + "\n") == Fields(line)
  {
    FieldsSplitAt(line, '\n', "");
    assert line + ['\n'] + "" == line + "\n";
  }

  /** The value of a digit character in the bases `int()` accepts. */
  function DigitOf(c: char): Option<nat>
  {
    if '0' <= c <= '9' then Some(c as int - '0' as int)
    else if 'a' <= c <= 'z' then Some(c as int - 'a' as int + 10)
    else if 'A' <= c <= 'Z' then Some(c as int - 'A' as int + 10)
    else None
  }

  predicate IsDigit(c: char, base: nat)
  {
    DigitOf(c).Some? && DigitOf(c).value < base
  }

  predicate AllDigits(s: string, base: nat)
  {
    forall k :: 0 <= k < |s| ==> IsDigit(s[k], base)
  }

  /** The number a digit string denotes, most significant digit first. */
  function DigitsValue(s: string, base: nat): nat
    requires AllDigits(s, base)
  {
    if s == [] then 0
    else DigitsValue(s[..|s| - 1], base) * base + DigitOf(s[|s| - 1]).value
  }

  /** The text after an optional leading sign. */
  function Unsigned(s: string): string
  {
    if |s| > 0 && (s[0] == '-' || s[0] == '+') then s[1..] else s
  }

  /** The digits after the optional `0x`/`0X` prefix that base 16 admits. */
  function DigitPart(u: string, base: nat): string
  {
    if base == 16 && |u| >= 2 && u[0] == '0' && (u[1] == 'x' || u[1] == 'X') then u[2..] else u
  }

  /** `int(s, base)` for base 10 or 16: an optional sign, for base 16 an
      optional `0x`/`0X` prefix, then at least one digit; `None` where
      Python raises ValueError. */
  function ParseInt(s: string, base: nat): Option<int>
    requires base == 10 || base == 16
  {
    var digits := DigitPart(Unsigned(s), base);
    if digits != [] && AllDigits(digits, base) then
      var n: int := DigitsValue(digits, base);
      Some(if |s| > 0 && s[0] == '-' then -n else n)
    else None
  }

  /** A literal `int(s, base)` accepts, cut into its parts: an optional sign
      `sg`, an optional prefix `px` (`0x` or `0X`, base 16 only) and a
      non-empty run `ds` of digits of the base. */
  predicate IntLiteral(s: string, sg: string, px: string, ds: string, base: nat)
  {
    LiteralForm(sg, px, ds, base) && s == sg + px + ds
  }

  /** The parts have the shapes a literal's sign, prefix and digits take. */
  predicate LiteralForm(sg: string, px: string, ds: string, base: nat)
  {
    && (sg == "" || sg == "+" || sg == "-")
    && (px == "" || (base == 16 && (px == "0x" || px == "0X")))
    && ds != [] && AllDigits(ds, base)
  }

  /** The value of a literal in its parts: the digits' value, negated by a minus sign. */
  function LiteralValue(sg: string, ds: string, base: nat): int
    requires AllDigits(ds, base)
  {
    var n: int := DigitsValue(ds, base);
    if sg == "-" then -n else n
  }

  /** `int()` accepts exactly the strings made of an optional sign, the
      optional prefix and a non-empty run of digits of the base, and gives
      the value those parts denote. */
  lemma ParseIntSpec(s: string, base: nat)
    requires base == 10 || base == 16
    ensures ParseInt(s, base).Some? <==> exists sg, px, ds :: IntLiteral(s, sg, px, ds, base)
    ensures forall sg, px, ds :: IntLiteral(s, sg, px, ds, base) ==> ParseInt(s, base) == Some(LiteralValue(sg, ds, base))
  {
    forall sg, px, ds | IntLiteral(s, sg, px, ds, base)
      ensures ParseInt(s, base) == Some(LiteralValue(sg, ds, base))
    {
      ParseLiteral(sg, px, ds, base);
    }
    if ParseInt(s, base).Some? {
      var sg, px, ds := LiteralParts(s, base);
    }
  }

  /** A string `int()` accepts, cut into sign, prefix and digits. */
  lemma LiteralParts(s: string, base: nat) returns (sg: string, px: string, ds: string)
    requires base == 10 || base == 16
    requires ParseInt(s, base).Some?
    ensures IntLiteral(s, sg, px, ds, base)
  {
    ds := DigitPart(Unsigned(s), base);
    sg, px := SignAndPrefix(s, base);
  }

  /** Every string is its optional sign, its optional prefix and the rest. */
  lemma SignAndPrefix(s: string, base: nat) returns (sg: string, px: string)
    ensures sg == "" || sg == "+" || sg == "-"
    ensures px == "" || (base == 16 && (px == "0x" || px == "0X"))
    ensures s == sg + px + DigitPart(Unsigned(s), base)
  {
    var u := Unsigned(s);
    sg := SignOf(s);
    px := PrefixOf(u, base);
    assert sg + px + DigitPart(u, base) == sg + (px + DigitPart(u, base));
  }

  /** The optional sign that starts a string, and the rest after it. */
  lemma SignOf(s: string) returns (sg: string)
    ensures sg == "" || sg == "+" || sg == "-"
    ensures s == sg + Unsigned(s)
  {
    if |s| > 0 && (s[0] == '-' || s[0] == '+') {
      sg := s[..1];
      assert s == sg + s[1..];
    } else {
      sg := "";
    }
  }

  /** The optional base-16 prefix that starts the unsigned text, and the digits after it. */
  lemma PrefixOf(u: string, base: nat) returns (px: string)
    ensures px == "" || (base == 16 && (px == "0x" || px == "0X"))
    ensures u == px + DigitPart(u, base)
  {
    if base == 16 && |u| >= 2 && u[0] == '0' && (u[1] == 'x' || u[1] == 'X') {
      px := u[..2];
      assert u == px + u[2..];
    } else {
      px := "";
    }
  }

  /** A literal in parts reads back as the value of its parts. */
  lemma ParseLiteral(sg: string, px: string, ds: string, base: nat)
    requires base == 10 || base == 16
    requires LiteralForm(sg, px, ds, base)
    ensures ParseInt(sg + px + ds, base) == Some(LiteralValue(sg, ds, base))
  {
    var s := sg + px + ds;
    var n: int := DigitsValue(ds, base);
    calc {
      ParseInt(s, base);
    == { SignPart(sg, px, ds, base); PrefixPart(px, ds, base); }
      Some(if |s| > 0 && s[0] == '-' then -n else n);
    == { SignPart(sg, px, ds, base); }
      Some(LiteralValue(sg, ds, base));
    }
  }

  /** The sign is cut off whole: what follows it is the prefix and digits. */
  lemma SignPart(sg: string, px: string, ds: string, base: nat)
    requires base == 10 || base == 16
    requires LiteralForm(sg, px, ds, base)
    ensures Unsigned(sg + px + ds) == px + ds
    ensures (sg + px + ds)[0] == '-' <==> sg == "-"
  {
    var s, u := sg + px + ds, px + ds;
    assert IsDigit(ds[0], base);
    if sg == "" {
      assert s == u;
      if px == "" {
        assert s[0] == ds[0];
      } else {
        assert s[0] == px[0];
      }
    } else {
      assert s[0] == sg[0] && s[1..] == u;
    }
  }

  /** The prefix is cut off whole: what follows it is the digits. */
  lemma PrefixPart(px: string, ds: string, base: nat)
    requires base == 10 || base == 16
    requires px == "" || (base == 16 && (px == "0x" || px == "0X"))
    requires ds != [] && AllDigits(ds, base)
    ensures DigitPart(px + ds, base) == ds
  {
    var u := px + ds;
    if px == "" {
      assert u == ds;
      assert |ds| >= 2 ==> IsDigit(ds[1], base);
    } else {
      assert u[2..] == ds;
    }
  }

  /** The lower-case digit for a value below 16. */
  function DigitChar(d: nat): char
    requires d < 16
  {
    "0123456789abcdef"[d]
  }

  /** The shortest digit string of a natural number. */
  function ToDigits(n: nat, base: nat): string
    requires base == 10 || base == 16
    decreases n
  {
    if n < base then [DigitChar(n)] else ToDigits(n / base, base) + [DigitChar(n % base)]
  }

  /** A number written out in a base, with a minus sign when negative. */
  function Show(v: int, base: nat): string
    requires base == 10 || base == 16
  {
    if v < 0 then "-" + ToDigits(-v, base) else ToDigits(v, base)
  }

  lemma DigitCharOf(d: nat)
    requires d < 16
    ensures DigitOf(DigitChar(d)) == Some(d)
  {
  }

  /** Writing a number out and reading the digits back gives the number. */
  lemma {:induction false} DigitsRoundTrip(n: nat, base: nat)
    requires base == 10 || base == 16
    ensures ToDigits(n, base) != [] && AllDigits(ToDigits(n, base), base)
    ensures DigitsValue(ToDigits(n, base), base) == n
    ensures ToDigits(n, base)[0] == '0' ==> n == 0
    decreases n
  {
    var s := ToDigits(n, base);
    if n < base {
      DigitCharOf(n);
    } else {
      var hi := ToDigits(n / base, base);
      DigitsRoundTrip(n / base, base);
      DigitCharOf(n % base);
      assert s == hi + [DigitChar(n % base)];
      assert s[..|s| - 1] == hi;
      assert forall k :: 0 <= k < |s| ==> IsDigit(s[k], base) by {
        forall k | 0 <= k < |s| ensures IsDigit(s[k], base) {
          if k < |hi| { assert s[k] == hi[k]; }
        }
      }
      assert s[0] == hi[0];
    }
  }

  /** `int(str(v)) == v`, and the same in base 16. */
  lemma ParseShow(v: int, base: nat)
    requires base == 10 || base == 16
    ensures ParseInt(Show(v, base), base) == Some(v)
  {
    var n: nat := if v < 0 then -v else v;
    var sg, ds := ShowParts(v, base);
    DigitsRoundTrip(n, base);
    ParseLiteral(sg, "", ds, base);
  }

  /** The shown text splits into a sign and the digits of the magnitude. */
  lemma ShowParts(v: int, base: nat) returns (sg: string, ds: string)
    requires base == 10 || base == 16
    ensures sg == (if v < 0 then "-" else "")
    ensures ds == ToDigits(if v < 0 then -v else v, base)
    ensures Show(v, base) == sg + "" + ds
  {
    sg := if v < 0 then "-" else "";
    ds := ToDigits(if v < 0 then -v else v, base);
    assert sg + "" + ds == sg + ds;
  }

  /** The address field of the example configuration line. */
  lemma HexExample()
    ensures ParseInt("58", 16) == Some(0x58)
    ensures ParseInt("0x58", 16) == Some(0x58)
    ensures ParseInt("58", 10) == Some(58)
    ensures ParseInt("0x58", 10) == None
    ensures ParseInt("", 10) == None && ParseInt("-", 10) == None
    ensures ParseInt("0", 10) == Some(0) && ParseInt("1", 10) == Some(1) && ParseInt("2", 10) == Some(2)
  {
    assert "58"[..1] == "5";
    assert DigitsValue("5", 16) == 5 && DigitsValue("5", 10) == 5;
    assert "0x58"[2..] == "58";
    assert !IsDigit('x', 10);
    assert "-"[1..] == "";
  }
}
