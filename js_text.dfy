/** The JavaScript string operations the application relies on, on `string`
    (a sequence of Unicode scalar values): `toLowerCase`, `trim`, `includes`,
    `join`, `replace` with a string pattern, `split(sep)[0]`, `parseInt` and
    the decimal rendering of an integer in a template literal. */
module JsText {
  import opened Wrappers

  /** `toLowerCase` on one character; only the ASCII letters are mapped. */
  function LowerChar(c: char): char {
    if 'A' <= c <= 'Z' then (c as int + 32) as char else c
  }

  function Lower(s: string): string {
    seq(|s|, i requires 0 <= i < |s| => LowerChar(s[i]))
  }

  /** The characters `trim` removes: WhiteSpace and LineTerminator of ECMA-262. */
  predicate IsSpace(c: char) {
    c == ' ' || c == '\t' || c == '\n' || c == '\r' || c == '\U{000B}' || c == '\U{000C}'
    || c == '\U{00A0}' || c == '\U{1680}' || ('\U{2000}' <= c <= '\U{200A}')
    || c == '\U{2028}' || c == '\U{2029}' || c == '\U{202F}' || c == '\U{205F}'
    || c == '\U{3000}' || c == '\U{FEFF}'
  }

  /** `!s.trim()`: the text is empty or whitespace only. */
  predicate IsBlank(s: string) {
    forall i :: 0 <= i < |s| ==> IsSpace(s[i])
  }

  /** Lower-casing keeps a string blank or not blank. */
  lemma LowerKeepsBlank(s: string)
    ensures IsBlank(Lower(s)) <==> IsBlank(s)
  {
    assert forall i :: 0 <= i < |s| ==> (IsSpace(Lower(s)[i]) <==> IsSpace(s[i]));
  }

  function TrimStart(s: string): (r: string)
    ensures r == [] <==> IsBlank(s)
    ensures r != [] ==> !IsSpace(r[0])
    decreases |s|
  {
    if |s| > 0 && IsSpace(s[0]) then TrimStart(s[1..]) else s
  }

  /** `TrimStart` removes a prefix: what is left is a suffix of the text. */
  lemma {:induction false} TrimStartSuffix(s: string)
    ensures |TrimStart(s)| <= |s| && TrimStart(s) == s[|s| - |TrimStart(s)|..]
    decreases |s|
  {
    if |s| > 0 && IsSpace(s[0]) {
      TrimStartSuffix(s[1..]);
    }
  }

  function TrimEnd(s: string): (r: string)
    ensures r == [] <==> IsBlank(s)
    ensures r != [] ==> !IsSpace(r[|r| - 1])
    decreases |s|
  {
    if |s| > 0 && IsSpace(s[|s| - 1]) then TrimEnd(s[..|s| - 1]) else s
  }

  /** `TrimEnd` removes a suffix: what is left is a prefix of the text. */
  lemma {:induction false} TrimEndPrefix(s: string)
    ensures TrimEnd(s) <= s
    decreases |s|
  {
    if |s| > 0 && IsSpace(s[|s| - 1]) {
      TrimEndPrefix(s[..|s| - 1]);
    }
  }

  /** `s.trim()`: the text without leading and trailing whitespace; it is
      empty exactly when `s` is blank. */
  function Trim(s: string): (r: string)
    ensures r == [] <==> IsBlank(s)
    ensures r != [] ==> !IsSpace(r[0]) && !IsSpace(r[|r| - 1])
  {
    var t := TrimStart(s);
    assert t != [] ==> !IsBlank(t);
    TrimEndPrefix(t);
    TrimEnd(t)
  }

  /** The trimmed text is a piece of the text: a suffix of it with a suffix
      cut off. */
  lemma TrimIsInfix(s: string)
    ensures exists i, j :: 0 <= i <= j <= |s| && Trim(s) == s[i..j]
  {
    var t := TrimStart(s);
    var r := TrimEnd(t);
    TrimStartSuffix(s);
    TrimEndPrefix(t);
    var i := |s| - |t|;
    var j := i + |r|;
    assert t == s[i..];
    assert r == t[..|r|];
    assert t[..|r|] == s[i..j];
    assert Trim(s) == r;
  }

  /** `sub` occurs in `s` starting at index `i`. */
  predicate OccursAt(s: string, sub: string, i: int) {
    0 <= i && i + |sub| <= |s| && s[i..i + |sub|] == sub
  }

  /** `s.includes(sub)`. */
  function Contains(s: string, sub: string): bool
    decreases |s|
  {
    if sub <= s then true
    else if |s| == 0 then false
    else Contains(s[1..], sub)
  }

  /** `includes` holds exactly when `sub` occurs somewhere in `s`. */
  lemma {:induction false} ContainsOccurs(s: string, sub: string)
    ensures Contains(s, sub) <==> exists i :: OccursAt(s, sub, i)
    decreases |s|
  {
    if sub <= s {
      assert OccursAt(s, sub, 0);
    } else if |s| > 0 {
      ContainsOccurs(s[1..], sub);
      if Contains(s[1..], sub) {
        var i :| OccursAt(s[1..], sub, i);
        assert s[i + 1..i + 1 + |sub|] == s[1..][i..i + |sub|];
        assert OccursAt(s, sub, i + 1);
      }
      if exists i :: OccursAt(s, sub, i) {
        var i :| OccursAt(s, sub, i);
        assert i != 0;
        assert s[1..][i - 1..i - 1 + |sub|] == s[i..i + |sub|];
        assert OccursAt(s[1..], sub, i - 1);
      }
    }
  }

  /** `xs.join(sep)`. */
  function Join(xs: seq<string>, sep: string): string
    decreases |xs|
  {
    if |xs| == 0 then "" else if |xs| == 1 then xs[0] else xs[0] + sep + Join(xs[1..], sep)
  }

  /** With a non-empty separator the joined text is empty only for no items or
      a single empty item; `["", ""]` joins to the separator. */
  lemma JoinEmpty(xs: seq<string>, sep: string)
    requires sep != ""
    ensures Join(xs, sep) == "" <==> |xs| == 0 || (|xs| == 1 && xs[0] == "")
  {
    if |xs| >= 2 {
      assert |Join(xs, sep)| >= |sep|;
    }
  }

  /** `s.replace(pat, rep)` with a string pattern: only the first occurrence
      is replaced (the replacement text must not hold `$` patterns). */
  function ReplaceFirst(s: string, pat: string, rep: string): (r: string)
    ensures pat != "" && rep != "" ==> (r == "" <==> s == "")
    ensures !Contains(s, pat) ==> r == s
    decreases |s|
  {
    if pat <= s then rep + s[|pat|..]
    else if |s| == 0 then s
    else [s[0]] + ReplaceFirst(s[1..], pat, rep)
  }

  /** `pat` occurs at `i` and nowhere before it. */
  predicate FirstOccurrence(s: string, pat: string, i: int) {
    OccursAt(s, pat, i) && forall j :: 0 <= j < i ==> !OccursAt(s, pat, j)
  }

  /** An occurrence in the tail of `s` is an occurrence in `s`, one place on. */
  lemma OccursInTail(s: string, pat: string, j: int)
    requires |s| > 0 && 0 <= j
    ensures OccursAt(s, pat, j + 1) <==> OccursAt(s[1..], pat, j)
  {
    if j + 1 + |pat| <= |s| {
      assert s[1..][j..j + |pat|] == s[j + 1..j + 1 + |pat|];
    }
  }

  /** Putting back the first character in front of a split tail. */
  lemma ConsSplit(s: string, rep: string, i: nat, n: nat)
    requires |s| > 0 && i + n <= |s| - 1
    ensures [s[0]] + (s[1..][..i] + rep + s[1..][i + n..]) == s[..i + 1] + rep + s[i + 1 + n..]
  {
    assert [s[0]] + s[1..][..i] == s[..i + 1];
    assert s[1..][i + n..] == s[i + 1 + n..];
  }

  /** The first occurrence in the tail, one place on, is the first
      occurrence in `s` when `s` does not start with `pat`. */
  lemma FirstOccurrenceStep(s: string, pat: string, i: nat)
    requires |s| > 0 && !(pat <= s)
    requires FirstOccurrence(s[1..], pat, i)
    ensures FirstOccurrence(s, pat, i + 1)
  {
    OccursInTail(s, pat, i);
    forall j | 0 < j < i + 1
      ensures !OccursAt(s, pat, j)
    {
      OccursInTail(s, pat, j - 1);
    }
  }

  /** Replacing in the tail at `i` is replacing in `s` at `i + 1`. */
  lemma ReplaceFirstStep(s: string, pat: string, rep: string, i: nat)
    requires |s| > 0 && !(pat <= s) && i + |pat| <= |s| - 1
    requires ReplaceFirst(s[1..], pat, rep) == s[1..][..i] + rep + s[1..][i + |pat|..]
    ensures ReplaceFirst(s, pat, rep) == s[..i + 1] + rep + s[i + 1 + |pat|..]
  {
    assert ReplaceFirst(s, pat, rep) == [s[0]] + ReplaceFirst(s[1..], pat, rep);
    ConsSplit(s, rep, i, |pat|);
  }

  /** When `pat` occurs in `s`, `replace` cuts out its first occurrence and
      puts `rep` in its place, leaving the text around it as it was. */
  lemma {:induction false} ReplaceFirstReplacesFirst(s: string, pat: string, rep: string)
    requires Contains(s, pat)
    ensures exists i ::
      && FirstOccurrence(s, pat, i)
      && ReplaceFirst(s, pat, rep) == s[..i] + rep + s[i + |pat|..]
    decreases |s|
  {
    if pat <= s {
      assert FirstOccurrence(s, pat, 0);
      assert s[..0] + rep + s[|pat|..] == rep + s[|pat|..];
    } else {
      ReplaceFirstReplacesFirst(s[1..], pat, rep);
      var i :| FirstOccurrence(s[1..], pat, i) &&
        ReplaceFirst(s[1..], pat, rep) == s[1..][..i] + rep + s[1..][i + |pat|..];
      FirstOccurrenceStep(s, pat, i);
      ReplaceFirstStep(s, pat, rep, i);
    }
  }

  /** `s.split(sep)[0]`: the text before the first `sep`, or all of `s`. */
  function BeforeFirst(s: string, sep: char): (r: string)
    ensures r <= s
    ensures sep !in r
    ensures |r| < |s| ==> s[|r|] == sep
    decreases |s|
  {
    if |s| == 0 || s[0] == sep then [] else [s[0]] + BeforeFirst(s[1..], sep)
  }

  /** The value of a digit character in radix up to 36, or 36 for a non-digit. */
  function DigitVal(c: char): nat {
    if '0' <= c <= '9' then c as int - '0' as int
    else if 'a' <= c <= 'z' then c as int - 'a' as int + 10
    else if 'A' <= c <= 'Z' then c as int - 'A' as int + 10
    else 36
  }

  /** The longest prefix of `s` made of digits of the given radix. */
  function DigitRun(s: string, radix: nat): (r: string)
    ensures r <= s
    ensures forall i :: 0 <= i < |r| ==> DigitVal(r[i]) < radix
    ensures |r| < |s| ==> DigitVal(s[|r|]) >= radix
    decreases |s|
  {
    if |s| > 0 && DigitVal(s[0]) < radix then [s[0]] + DigitRun(s[1..], radix) else []
  }

  /** The number written by a digit string, most significant digit first. */
  function DigitsValue(ds: string, radix: nat): int
    decreases |ds|
  {
    if |ds| == 0 then 0 else DigitsValue(ds[..|ds| - 1], radix) * radix + DigitVal(ds[|ds| - 1])
  }

  /** `parseInt(s)` with no radix: leading whitespace, an optional sign, an
      optional `0x`/`0X` prefix selecting radix 16, then the longest run of
      digits. `None` is `NaN`, the result when no digit follows. */
  function ParseInt(s: string): Option<int> {
    var t := TrimStart(s);
    if |t| > 0 && t[0] == '-' then ParseUnsigned(t[1..], -1)
    else if |t| > 0 && t[0] == '+' then ParseUnsigned(t[1..], 1)
    else ParseUnsigned(t, 1)
  }

  /** `parseInt` after the sign has been read. */
  function ParseUnsigned(u: string, sign: int): Option<int> {
    var hex := |u| >= 2 && u[0] == '0' && (u[1] == 'x' || u[1] == 'X');
    var radix := if hex then 16 else 10;
    var ds := DigitRun(if hex then u[2..] else u, radix);
    if ds == [] then None else Some(sign * DigitsValue(ds, radix))
  }

  function DigitChar(d: nat): char
    requires d < 10
  {
    ('0' as int + d) as char
  }

  /** The decimal digits of a natural number, as a template literal prints it. */
  function NatToString(n: nat): (r: string)
    ensures r != []
    ensures forall i :: 0 <= i < |r| ==> '0' <= r[i] <= '9'
    decreases n
  {
    if n < 10 then [DigitChar(n)] else NatToString(n / 10) + [DigitChar(n % 10)]
  }

  /** `${n}` for an integer. */
  function IntToString(n: int): string {
    if n < 0 then "-" + NatToString(-n) else NatToString(n)
  }

  lemma {:induction false} NatToStringValue(n: nat)
    ensures DigitsValue(NatToString(n), 10) == n
    decreases n
  {
    var r := NatToString(n);
    if n >= 10 {
      NatToStringValue(n / 10);
      assert r[..|r| - 1] == NatToString(n / 10);
    }
  }

  lemma {:induction false} DigitRunOfDigits(s: string)
    requires forall i :: 0 <= i < |s| ==> '0' <= s[i] <= '9'
    ensures DigitRun(s, 10) == s
    decreases |s|
  {
    if |s| > 0 {
      DigitRunOfDigits(s[1..]);
    }
  }

  /** `parseInt` of a run of decimal digits, which never starts with `0x`. */
  lemma ParseUnsignedDigits(u: string, sign: int)
    requires u != [] && forall i :: 0 <= i < |u| ==> '0' <= u[i] <= '9'
    ensures ParseUnsigned(u, sign) == Some(sign * DigitsValue(u, 10))
  {
    assert !(|u| >= 2 && (u[1] == 'x' || u[1] == 'X'));
    DigitRunOfDigits(u);
  }

  /** `parseInt` reads back what a template literal prints. */
  lemma ParseIntOfIntToString(n: int)
    ensures ParseInt(IntToString(n)) == Some(n)
  {
    var m: nat := if n < 0 then -n else n;
    var u := NatToString(m);
    var t := IntToString(n);
    NatToStringValue(m);
    assert TrimStart(t) == t by {
      assert !IsSpace(t[0]);
    }
    if n < 0 {
      assert t[1..] == u;
      ParseUnsignedDigits(u, -1);
    } else {
      ParseUnsignedDigits(u, 1);
    }
  }

  /** Different integers print differently. */
  lemma IntToStringInjective(a: int, b: int)
    ensures IntToString(a) == IntToString(b) <==> a == b
  {
    ParseIntOfIntToString(a);
    ParseIntOfIntToString(b);
  }
}
