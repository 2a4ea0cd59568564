/** Reading the text of the guess entry as a decimal integer, by a subset of
    the grammar of Python's `int`. Surrounding ASCII whitespace is ignored,
    then comes one optional `+` or `-` sign, then one or more ASCII decimal
    digits, at most 4300 of them (CPython's default limit on converting text
    to an integer). Digit-group underscores are not supported. Anything else
    is refused. That covers every text on which Python raises `ValueError`,
    and also underscore-grouped or non-ASCII text that Python accepts. */
module IntParse {
  import opened Wrappers

  /** CPython's default limit on the number of digits `int` reads from text. */
  const MaxStrDigits: nat := 4300

  predicate IsDigit(c: char) {
    '0' <= c <= '9'
  }

  /** The ASCII characters Python treats as whitespace around a number:
      space, tab, line feed, vertical tab, form feed, carriage return. */
  predicate IsSpace(c: char) {
    c == ' ' || c == '\t' || c == '\n' || c == '\r' || c as int == 11 || c as int == 12
  }

  predicate AllDigits(s: string) {
    forall i :: 0 <= i < |s| ==> IsDigit(s[i])
  }

  predicate AllSpace(s: string) {
    forall i :: 0 <= i < |s| ==> IsSpace(s[i])
  }

  predicate HasDigit(s: string) {
    exists i :: 0 <= i < |s| && IsDigit(s[i])
  }

  /** Drops the leading whitespace of `s`. */
  function StripLeft(s: string): (t: string)
    ensures |t| <= |s| && t == s[|s| - |t|..]
    ensures AllSpace(s[..|s| - |t|])
    ensures |t| > 0 ==> !IsSpace(t[0])
    decreases |s|
  {
    if |s| > 0 && IsSpace(s[0]) then StripLeft(s[1..]) else s
  }

  /** Drops the trailing whitespace of `s`. */
  function StripRight(s: string): (t: string)
    ensures |t| <= |s| && t == s[..|t|]
    ensures AllSpace(s[|t|..])
    ensures |t| > 0 ==> !IsSpace(t[|t| - 1])
    decreases |s|
  {
    if |s| > 0 && IsSpace(s[|s| - 1]) then StripRight(s[..|s| - 1]) else s
  }

  /** Drops the whitespace at both ends of `s`. */
  function Strip(s: string): string {
    StripRight(StripLeft(s))
  }

  function DigitValue(c: char): (d: nat)
    requires IsDigit(c)
    ensures d < 10
  {
    (c as int) - ('0' as int)
  }

  function DigitChar(d: nat): (c: char)
    requires d < 10
    ensures IsDigit(c) && DigitValue(c) == d
  {
    (('0' as int) + d) as char
  }

  /** The value of a string of decimal digits, most significant first. */
  function DigitsValue(s: string): nat
    requires AllDigits(s)
    decreases |s|
  {
    if |s| == 0 then 0 else 10 * DigitsValue(s[..|s| - 1]) + DigitValue(s[|s| - 1])
  }

  /** The value of `digits` under `sign`, which is "", "+" or "-". */
  function SignedValue(sign: string, digits: string): int
    requires AllDigits(digits)
  {
    var value: int := DigitsValue(digits);
    if sign == "-" then -value else value
  }

  /** The optional sign at the head of `t`. */
  function SignOf(t: string): (sign: string)
    ensures sign == "" || sign == "+" || sign == "-"
    ensures |sign| <= |t| && sign == t[..|sign|]
    ensures |t| > 0 && IsDigit(t[0]) ==> sign == ""
  {
    if |t| > 0 && (t[0] == '-' || t[0] == '+') then t[..1] else []
  }

  /** The sign and digits of an already stripped text, or None. */
  function ParseStripped(t: string): (r: Option<int>)
    ensures r.Some? ==> HasDigit(t)
    ensures r.Some? ==> var digits := t[|SignOf(t)|..];
      && 0 < |digits| <= MaxStrDigits && AllDigits(digits)
      && r.value == SignedValue(SignOf(t), digits)
    ensures 0 < |t| <= MaxStrDigits && AllDigits(t) ==> r == Some(DigitsValue(t))
  {
    var sign := SignOf(t);
    var digits := t[|sign|..];
    if 0 < |digits| <= MaxStrDigits && AllDigits(digits) then
      assert IsDigit(t[|t| - 1]);
      Some(SignedValue(sign, digits))
    else None
  }

  /** The integer written in `text`, or None. None is returned where
      Python's `int` raises `ValueError`, and also for underscore-grouped or
      non-ASCII text that Python accepts. */
  function Parse(text: string): (r: Option<int>)
    ensures r.Some? ==> HasDigit(text)
    ensures 0 < |text| <= MaxStrDigits && AllDigits(text) ==> r == Some(DigitsValue(text))
  {
    StripKeepsDigits(text);
    ParseStripped(Strip(text))
  }

  /** `Strip` keeps a slice of its input, and a digit string whole. */
  lemma StripKeepsDigits(text: string)
    ensures HasDigit(Strip(text)) ==> HasDigit(text)
    ensures |text| > 0 && AllDigits(text) ==> Strip(text) == text
  {
    var l := StripLeft(text);
    var t := StripRight(l);
    if HasDigit(t) {
      var i :| 0 <= i < |t| && IsDigit(t[i]);
      assert t[i] == text[|text| - |l| + i];
    }
    if |text| > 0 && AllDigits(text) {
      assert !IsSpace(text[0]);
      assert !IsSpace(text[|text| - 1]);
    }
  }

  /** Decimal digits of `n`, with no leading zeros. */
  function Show(n: nat): (s: string)
    ensures |s| > 0 && AllDigits(s)
    ensures |s| > 1 ==> s[0] != '0'
    decreases n
  {
    if n < 10 then [DigitChar(n)] else Show(n / 10) + [DigitChar(n % 10)]
  }

  /** How the integer `n` is written: a `-` for negative numbers, then its digits. */
  function ShowInt(n: int): (s: string)
    ensures |s| > 0
  {
    if n < 0 then "-" + Show(-n) else Show(n)
  }

  lemma {:induction false} DigitsValueShow(n: nat)
    ensures DigitsValue(Show(n)) == n
    decreases n
  {
    if n >= 10 {
      var s := Show(n);
      var p := Show(n / 10);
      assert s == p + [DigitChar(n % 10)];
      assert s[..|s| - 1] == p;
      DigitsValueShow(n / 10);
    }
  }

  function Pow10(k: nat): nat
  {
    if k == 0 then 1 else 10 * Pow10(k - 1)
  }

  /** A number below `10^k` has at most `k` digits. */
  lemma {:induction false} ShowLength(n: nat, k: nat)
    requires 0 < k && n < Pow10(k)
    ensures |Show(n)| <= k
    decreases n
  {
    if n >= 10 {
      assert k > 1;
      assert n / 10 < Pow10(k - 1);
      ShowLength(n / 10, k - 1);
    }
  }

  /** Reading back what `ShowInt` wrote gives the same integer, for every
      integer whose digits are within the limit. */
  lemma ParseShowInt(n: int)
    requires |Show(if n < 0 then -n else n)| <= MaxStrDigits
    ensures Parse(ShowInt(n)) == Some(n)
  {
    var m := if n < 0 then -n else n;
    var sign := if n < 0 then "-" else "";
    DigitsValueShow(m);
    assert ShowInt(n) == sign + Show(m);
    ParseUnpadded(sign, Show(m));
  }

  /** Leading whitespace does not change what `StripLeft` keeps. */
  lemma {:induction false} StripLeftSpacePrefix(pre: string, x: string)
    requires AllSpace(pre)
    ensures StripLeft(pre + x) == StripLeft(x)
    decreases |pre|
  {
    if |pre| > 0 {
      assert (pre + x)[1..] == pre[1..] + x;
      StripLeftSpacePrefix(pre[1..], x);
    } else {
      assert pre + x == x;
    }
  }

  /** Trailing whitespace does not change what `StripRight` keeps. */
  lemma {:induction false} StripRightSpaceSuffix(x: string, post: string)
    requires AllSpace(post)
    ensures StripRight(x + post) == StripRight(x)
    decreases |post|
  {
    if |post| > 0 {
      var xp := x + post;
      assert xp[..|xp| - 1] == x + post[..|post| - 1];
      StripRightSpaceSuffix(x, post[..|post| - 1]);
    } else {
      assert x + post == x;
    }
  }

  /** Trailing whitespace passes through `StripLeft` unless nothing else is left. */
  lemma {:induction false} StripLeftSpaceSuffix(x: string, post: string)
    requires AllSpace(post)
    ensures StripLeft(x) == [] ==> StripLeft(x + post) == []
    ensures StripLeft(x) != [] ==> StripLeft(x + post) == StripLeft(x) + post
    decreases |x|
  {
    if |x| == 0 {
      assert x + post == [] + post;
      StripLeftSpacePrefix(post, []);
      assert post + [] == post;
    } else if IsSpace(x[0]) {
      assert (x + post)[1..] == x[1..] + post;
      StripLeftSpaceSuffix(x[1..], post);
    }
  }

  /** Whitespace around the entry text does not change the number it holds. */
  lemma ParseIgnoresSurroundingSpace(pre: string, text: string, post: string)
    requires AllSpace(pre) && AllSpace(post)
    ensures Parse(pre + text + post) == Parse(text)
  {
    assert pre + text + post == pre + (text + post);
    StripLeftSpacePrefix(pre, text + post);
    StripLeftSpaceSuffix(text, post);
    if StripLeft(text) != [] {
      StripRightSpaceSuffix(StripLeft(text), post);
    }
  }

  /** A text of whitespace alone holds no number. */
  lemma BlankIsNotANumber(text: string)
    requires AllSpace(text)
    ensures Parse(text) == None
  {
    if HasDigit(text) {
      var i :| 0 <= i < |text| && IsDigit(text[i]);
      assert IsSpace(text[i]);
    }
  }

  /** `text` is an integer literal with value `v`: whitespace, an optional
      sign, one to `MaxStrDigits` decimal digits, whitespace. */
  ghost predicate IsIntLiteral(text: string, v: int) {
    exists pre, sign, digits, post ::
      && AllSpace(pre) && AllSpace(post)
      && (sign == "" || sign == "+" || sign == "-")
      && 0 < |digits| <= MaxStrDigits && AllDigits(digits)
      && text == pre + sign + digits + post
      && v == SignedValue(sign, digits)
  }

  /** A text that neither starts nor ends with whitespace is its own strip. */
  lemma StripUnpadded(x: string)
    requires |x| > 0 && !IsSpace(x[0]) && !IsSpace(x[|x| - 1])
    ensures Strip(x) == x
  {
    assert StripLeft(x) == x;
  }

  /** A sign followed by digits is read by `ParseStripped` as its signed value. */
  lemma ParseStrippedSigned(sign: string, digits: string)
    requires sign == "" || sign == "+" || sign == "-"
    requires 0 < |digits| <= MaxStrDigits && AllDigits(digits)
    ensures ParseStripped(sign + digits) == Some(SignedValue(sign, digits))
  {
    var x := sign + digits;
    if sign == "" {
      assert x == digits;
    } else {
      assert x[0] == sign[0];
      assert SignOf(x) == sign;
      assert x[|sign|..] == digits;
    }
  }

  /** A sign and digits with no surrounding whitespace are read as their value. */
  lemma ParseUnpadded(sign: string, digits: string)
    requires sign == "" || sign == "+" || sign == "-"
    requires 0 < |digits| <= MaxStrDigits && AllDigits(digits)
    ensures Parse(sign + digits) == Some(SignedValue(sign, digits))
  {
    var x := sign + digits;
    assert x[|x| - 1] == digits[|digits| - 1];
    assert x[0] == if sign == "" then digits[0] else sign[0];
    StripUnpadded(x);
    ParseStrippedSigned(sign, digits);
  }

  /** Every well-formed literal is read as its value. */
  lemma ParseReadsLiteral(pre: string, sign: string, digits: string, post: string)
    requires AllSpace(pre) && AllSpace(post)
    requires sign == "" || sign == "+" || sign == "-"
    requires 0 < |digits| <= MaxStrDigits && AllDigits(digits)
    ensures Parse(pre + sign + digits + post) == Some(SignedValue(sign, digits))
  {
    var x := sign + digits;
    calc {
      Parse(pre + sign + digits + post);
      { assert pre + sign + digits + post == pre + x + post; }
      Parse(pre + x + post);
      { ParseIgnoresSurroundingSpace(pre, x, post); }
      Parse(x);
      { ParseUnpadded(sign, digits); }
      Some(SignedValue(sign, digits));
    }
  }

  /** Cutting a sequence at `k` and joining the pieces gives it back. */
  lemma SplitJoin(s: string, k: nat)
    requires k <= |s|
    ensures s == s[..k] + s[k..]
  {
  }

  /** The whitespace `Strip` removes from the front of `text`. */
  ghost function LeadingSpace(text: string): (pre: string)
    ensures AllSpace(pre)
    ensures text == pre + StripLeft(text)
  {
    var k := |text| - |StripLeft(text)|;
    SplitJoin(text, k);
    text[..k]
  }

  /** The whitespace `Strip` removes from the back of `text`. */
  ghost function TrailingSpace(text: string): (post: string)
    ensures AllSpace(post)
    ensures StripLeft(text) == Strip(text) + post
  {
    TrailingOf(StripLeft(text))
  }

  /** The whitespace `StripRight` removes from the back of `l`. */
  ghost function TrailingOf(l: string): (post: string)
    ensures AllSpace(post)
    ensures l == StripRight(l) + post
  {
    var k := |StripRight(l)|;
    SplitJoin(l, k);
    l[k..]
  }

  /** A stripped text `ParseStripped` accepts is its sign followed by its digits. */
  lemma StrippedShape(t: string)
    requires ParseStripped(t).Some?
    ensures t == SignOf(t) + t[|SignOf(t)|..]
  {
    SplitJoin(t, |SignOf(t)|);
  }

  /** Whatever `Parse` accepts is a well-formed literal of the value read. */
  lemma ParseOnlyLiterals(text: string)
    requires Parse(text).Some?
    ensures IsIntLiteral(text, Parse(text).value)
  {
    var t := Strip(text);
    var pre := LeadingSpace(text);
    var post := TrailingSpace(text);
    var sign := SignOf(t);
    var digits := t[|sign|..];
    StrippedShape(t);
    assert text == pre + sign + digits + post by {
      ConcatRegroup(pre, sign, digits, post);
    }
    LiteralIntro(text, Parse(text).value, pre, sign, digits, post);
  }

  lemma ConcatRegroup(a: string, b: string, c: string, d: string)
    ensures a + ((b + c) + d) == a + b + c + d
  {
  }

  /** A literal given by its parts. */
  lemma LiteralIntro(text: string, v: int, pre: string, sign: string, digits: string, post: string)
    requires AllSpace(pre) && AllSpace(post)
    requires sign == "" || sign == "+" || sign == "-"
    requires 0 < |digits| <= MaxStrDigits && AllDigits(digits)
    requires text == pre + sign + digits + post && v == SignedValue(sign, digits)
    ensures IsIntLiteral(text, v)
  {
  }

  /** `Parse` reads exactly the well-formed literals: it returns `Some(v)`
      if and only if `text` is a literal with value `v`, and refuses all
      other text. */
  lemma ParseExactlyLiterals(text: string, v: int)
    ensures Parse(text) == Some(v) <==> IsIntLiteral(text, v)
  {
    if Parse(text) == Some(v) {
      ParseOnlyLiterals(text);
    }
    if IsIntLiteral(text, v) {
      var pre, sign, digits, post :|
        && AllSpace(pre) && AllSpace(post)
        && (sign == "" || sign == "+" || sign == "-")
        && 0 < |digits| <= MaxStrDigits && AllDigits(digits)
        && text == pre + sign + digits + post
        && v == SignedValue(sign, digits);
      ParseReadsLiteral(pre, sign, digits, post);
    }
  }
}
