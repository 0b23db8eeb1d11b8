/**
 Decimal text and the character-level steps of Go's formatted scanning:
 the digits `%d` prints and reads, the white space that `fmt` skips and
 `strings.TrimSpace` removes, and the integer token reader behind `%d`
 and `%02d`. Strings are sequences of Unicode scalar values, i.e. text
 after UTF-8 decoding.
 */
module Text {
  import opened Options

  predicate IsDigit(c: char)
  {
    '0' <= c <= '9'
  }

  /** Go's white space: the table in fmt's scanner, which is also the set
      `unicode.IsSpace` accepts and `strings.TrimSpace` strips. */
  predicate IsSpace(c: char)
  {
    || '\t' <= c <= '\r'
    || c == ' '
    || c == '\U{85}'
    || c == '\U{A0}'
    || c == '\U{1680}'
    || '\U{2000}' <= c <= '\U{200A}'
    || c == '\U{2028}'
    || c == '\U{2029}'
    || c == '\U{202F}'
    || c == '\U{205F}'
    || c == '\U{3000}'
  }

  predicate AllDigits(s: string)
  {
    forall p :: 0 <= p < |s| ==> IsDigit(s[p])
  }

  predicate AllSpaces(s: string)
  {
    forall p :: 0 <= p < |s| ==> IsSpace(s[p])
  }

  function DigitValue(c: char): (d: nat)
    requires IsDigit(c)
    ensures d < 10
  {
    c as int - '0' as int
  }

  function Digit(d: nat): (c: char)
    requires d < 10
    ensures IsDigit(c) && DigitValue(c) == d
  {
    ('0' as int + d) as char
  }

  /** The number a run of decimal digits denotes, most significant digit
      first. Equal runs denote equal numbers without unfolding DecodeRun. */
  function DecodeDigits(ds: string): nat
    requires AllDigits(ds)
  {
    DecodeRun(ds)
  }

  /** The recursion behind DecodeDigits: the last digit is the units. */
  function DecodeRun(ds: string): nat
    requires AllDigits(ds)
    decreases |ds|
  {
    if |ds| == 0 then 0 else DecodeRun(ds[..|ds| - 1]) * 10 + DigitValue(ds[|ds| - 1])
  }

  /** Appending a digit multiplies the number by ten and adds the digit. */
  lemma DecodeAppend(ds: string, c: char)
    requires AllDigits(ds) && IsDigit(c)
    ensures AllDigits(ds + [c])
    ensures DecodeDigits(ds + [c]) == DecodeDigits(ds) * 10 + DigitValue(c)
  {
    assert (ds + [c])[..|ds|] == ds;
  }

  /** A single digit denotes its own value. */
  lemma DecodeOne(c: char)
    requires IsDigit(c)
    ensures AllDigits([c]) && DecodeDigits([c]) == DigitValue(c)
  {
    DecodeAppend([], c);
    assert [] + [c] == [c];
  }

  /** The decimal digits of `n` without leading zeros, as `%d` prints a
      non-negative integer; reading them back yields `n`. */
  function NatDigits(n: nat): (r: string)
    ensures 0 < |r| && AllDigits(r)
    ensures DecodeDigits(r) == n
    ensures |r| == 1 <==> n < 10
    ensures r[0] == '0' <==> n == 0
    decreases n
  {
    if n < 10 then
      DecodeOne(Digit(n));
      [Digit(n)]
    else
      DecodeAppend(NatDigits(n / 10), Digit(n % 10));
      NatDigits(n / 10) + [Digit(n % 10)]
  }

  /** `%d`: a minus sign followed by the digits of the magnitude for a negative `n`. */
  function Decimal(n: int): string
  {
    if n < 0 then "-" + NatDigits(-n) else NatDigits(n)
  }

  /** `%02d`: at least two columns, zero-padded after the sign; a negative
      number's sign occupies one of the columns, so it is never padded. */
  function ZeroPad2(n: int): string
  {
    if n < 0 then Decimal(n)
    else if n < 10 then "0" + NatDigits(n)
    else NatDigits(n)
  }

  /** The two digits of a number below 100, tens first. */
  function TwoDigits(n: nat): (r: string)
    requires n < 100
    ensures |r| == 2 && AllDigits(r) && DecodeDigits(r) == n
  {
    var a, b := Digit(n / 10), Digit(n % 10);
    DecodeOne(a);
    DecodeAppend([a], b);
    assert [a] + [b] == [a, b];
    [a, b]
  }

  /** For every number below 100, `%02d` prints exactly its two digits. */
  lemma ZeroPad2Small(n: int)
    requires 0 <= n < 100
    ensures ZeroPad2(n) == TwoDigits(n)
  {
    if n >= 10 {
      assert NatDigits(n) == NatDigits(n / 10) + [Digit(n % 10)];
    }
  }

  /** The end of the longest run of digits of `s` starting at `j` and not
      reaching past `end`. */
  function DigitRun(s: string, j: nat, end: nat): (k: nat)
    requires j <= end <= |s|
    ensures j <= k <= end
    ensures forall p :: j <= p < k ==> IsDigit(s[p])
    ensures k == end || !IsDigit(s[k])
    decreases end - j
  {
    if j == end || !IsDigit(s[j]) then j else DigitRun(s, j + 1, end)
  }

  /** A digit run is determined by where the digits stop. */
  lemma {:induction false} DigitRunAt(s: string, j: nat, end: nat, k: nat)
    requires j <= k <= end <= |s|
    requires forall p :: j <= p < k ==> IsDigit(s[p])
    requires k == end || !IsDigit(s[k])
    ensures DigitRun(s, j, end) == k
    decreases k - j
  {
    if j < k {
      DigitRunAt(s, j + 1, end, k);
    }
  }

  /** fmt's `SkipSpace` for Sscanf: skips white space from `i` and yields the
      first other position, or fails on a newline, which Sscanf does not treat
      as space. */
  function SkipSpace(s: string, i: nat): (r: Option<nat>)
    requires i <= |s|
    ensures r.Some? ==> i <= r.value <= |s| && (r.value == |s| || !IsSpace(s[r.value]))
    ensures r.Some? ==> forall p :: i <= p < r.value ==> IsSpace(s[p]) && s[p] != '\n'
    ensures r.None? ==>
      exists p :: i <= p < |s| && s[p] == '\n' && forall q :: i <= q < p ==> IsSpace(s[q]) && s[q] != '\n'
    decreases |s| - i
  {
    if i == |s| then Some(i)
    else if s[i] == '\n' then None
    else if IsSpace(s[i]) then SkipSpace(s, i + 1)
    else Some(i)
  }

  /** An integer token read by `%d`: its sign, the value of its digits and
      the position just after it. */
  datatype IntToken = IntToken(negative: bool, magnitude: nat, end: nat)
  {
    function Value(): int
    {
      if negative then -(magnitude as int) else magnitude
    }
  }

  /** fmt's `scanInt` for base 10, reading no further than `end` (the field
      width): an optional `+` or `-`, then at least one digit, then as many
      digits as follow. */
  function ScanInt(s: string, i: nat, end: nat): (r: Option<IntToken>)
    requires i <= end <= |s|
    ensures r.Some? ==> i < r.value.end <= end && IsDigit(s[r.value.end - 1])
    ensures r.Some? ==> r.value.end == end || !IsDigit(s[r.value.end])
    ensures r.Some? ==> r.value.negative == (s[i] == '-')
    ensures r.None? <==> i == end || SignEnd(s, i) == end || !IsDigit(s[SignEnd(s, i)])
  {
    if i == end then None else ScanDigits(s, SignEnd(s, i), end, s[i] == '-')
  }

  /** The magnitude of a token ScanInt reads is the number its digits
      denote: every character from the end of the sign to the end of the
      token is a digit. Stated apart from ScanInt so that proofs about
      whole patterns do not carry it. */
  lemma ScanIntValue(s: string, i: nat, end: nat)
    requires i <= end <= |s|
    ensures var r := ScanInt(s, i, end);
      r.Some? ==>
        && AllDigits(s[SignEnd(s, i)..r.value.end])
        && r.value.magnitude == DecodeDigits(s[SignEnd(s, i)..r.value.end])
  {
  }

  /** Where the digits of a token starting at `i` begin: after a `+` or `-`. */
  function SignEnd(s: string, i: nat): (j: nat)
    requires i < |s|
    ensures j == i || j == i + 1
  {
    if s[i] == '+' || s[i] == '-' then i + 1 else i
  }

  /** The digits of a `%d` token after its optional sign: at least one digit,
      and then every digit up to `end`. */
  function ScanDigits(s: string, j: nat, end: nat, negative: bool): (r: Option<IntToken>)
    requires j <= end <= |s|
    ensures r.Some? ==> j < r.value.end <= end && IsDigit(s[r.value.end - 1])
    ensures r.Some? ==> r.value.end == end || !IsDigit(s[r.value.end])
    ensures r.Some? ==> r.value.negative == negative
    ensures r.Some? ==> AllDigits(s[j..r.value.end]) && r.value.magnitude == DecodeDigits(s[j..r.value.end])
    ensures r.None? <==> j == end || !IsDigit(s[j])
  {
    var k := DigitRun(s, j, end);
    if k == j then None else Some(IntToken(negative, DecodeDigits(s[j..k]), k))
  }

  /** Where `ds` stands at `j` followed by the end or a non-digit, the digit
      run from `j` is exactly `ds`. */
  lemma DigitRunOver(s: string, j: nat, end: nat, ds: string)
    requires AllDigits(ds)
    requires j + |ds| <= end <= |s| && s[j..j + |ds|] == ds
    requires j + |ds| == end || !IsDigit(s[j + |ds|])
    ensures DigitRun(s, j, end) == j + |ds|
  {
    forall p | j <= p < j + |ds|
      ensures IsDigit(s[p])
    {
      assert s[p] == s[j..j + |ds|][p - j];
    }
    DigitRunAt(s, j, end, j + |ds|);
  }

  /** A run of digits `ds` at `j`, followed by the end or a non-digit, is
      read as exactly that number. */
  lemma ScanDigitsOf(s: string, j: nat, end: nat, ds: string, negative: bool)
    requires 0 < |ds| && AllDigits(ds)
    requires j + |ds| <= end <= |s| && s[j..j + |ds|] == ds
    requires j + |ds| == end || !IsDigit(s[j + |ds|])
    ensures ScanDigits(s, j, end, negative) == Some(IntToken(negative, DecodeDigits(ds), j + |ds|))
  {
    DigitRunOver(s, j, end, ds);
  }

  /** Reading an unsigned run of digits that ends at `end` or at a non-digit
      yields exactly that number. */
  lemma ScanUnsignedOf(s: string, i: nat, end: nat, ds: string)
    requires 0 < |ds| && AllDigits(ds)
    requires i + |ds| <= end <= |s| && s[i..i + |ds|] == ds
    requires i + |ds| == end || !IsDigit(s[i + |ds|])
    ensures ScanInt(s, i, end) == Some(IntToken(false, DecodeDigits(ds), i + |ds|))
  {
    assert s[i] == ds[0] && SignEnd(s, i) == i;
    ScanDigitsOf(s, i, end, ds, false);
  }

  /** Reading `-` followed by a run of digits that ends at `end` or at a
      non-digit yields the negated number. */
  lemma ScanNegativeOf(s: string, i: nat, end: nat, ds: string)
    requires 0 < |ds| && AllDigits(ds)
    requires i + 1 + |ds| <= end <= |s| && s[i] == '-' && s[i + 1..i + 1 + |ds|] == ds
    requires i + 1 + |ds| == end || !IsDigit(s[i + 1 + |ds|])
    ensures ScanInt(s, i, end) == Some(IntToken(true, DecodeDigits(ds), i + 1 + |ds|))
  {
    assert SignEnd(s, i) == i + 1;
    ScanDigitsOf(s, i + 1, end, ds, s[i] == '-');
  }

  /** An integer token starts at `k`: a digit, or a sign followed by a digit. */
  predicate IntStartsAt(s: string, k: nat)
    requires k < |s|
  {
    IsDigit(s[k]) || (k + 1 < |s| && (s[k] == '+' || s[k] == '-') && IsDigit(s[k + 1]))
  }

  /** `%d` finds an integer at the start of `s`: one starts after white space
      that holds no newline. */
  predicate StartsWithInt(s: string)
  {
    exists k :: 0 <= k < |s| && (forall p :: 0 <= p < k ==> IsSpace(s[p]) && s[p] != '\n') && IntStartsAt(s, k)
  }

  /** Reading to the end of the text, ScanInt succeeds exactly where an
      integer token starts. */
  lemma ScanIntAt(s: string, i: nat)
    requires i < |s|
    ensures ScanInt(s, i, |s|).Some? <==> IntStartsAt(s, i)
  {
  }

  /** Where skipping the leading white space stops at the start of an
      integer token, the text starts with an integer. */
  lemma SkipSpaceToInt(s: string)
    requires SkipSpace(s, 0).Some? && SkipSpace(s, 0).value < |s| && IntStartsAt(s, SkipSpace(s, 0).value)
    ensures StartsWithInt(s)
  {
    var k := SkipSpace(s, 0).value;
    assert forall p :: 0 <= p < k ==> IsSpace(s[p]) && s[p] != '\n';
  }

  /** Where the text starts with an integer, skipping the leading white
      space stops exactly at the start of that integer token. */
  lemma IntAfterSkipSpace(s: string, k: nat)
    requires k < |s| && (forall p :: 0 <= p < k ==> IsSpace(s[p]) && s[p] != '\n') && IntStartsAt(s, k)
    ensures SkipSpace(s, 0) == Some(k)
  {
    var r := SkipSpace(s, 0);
    if r.Some? {
      assert r.value < k || k < r.value || k == r.value;
    }
  }

  /** The text starts with an integer exactly when skipping its leading
      white space succeeds and stops where an integer token starts. */
  lemma SkipSpaceFindsInt(s: string)
    ensures StartsWithInt(s)
      <==> SkipSpace(s, 0).Some? && SkipSpace(s, 0).value < |s| && IntStartsAt(s, SkipSpace(s, 0).value)
  {
    if SkipSpace(s, 0).Some? && SkipSpace(s, 0).value < |s| && IntStartsAt(s, SkipSpace(s, 0).value) {
      SkipSpaceToInt(s);
    }
    if StartsWithInt(s) {
      var k :| 0 <= k < |s| && (forall p :: 0 <= p < k ==> IsSpace(s[p]) && s[p] != '\n') && IntStartsAt(s, k);
      IntAfterSkipSpace(s, k);
    }
  }

  /** `strings.TrimSpace`: the text without leading and trailing white space. */
  function TrimSpace(s: string): (r: string)
    ensures |r| <= |s|
    ensures r == [] || (!IsSpace(r[0]) && !IsSpace(r[|r| - 1]))
    decreases |s|
  {
    if |s| > 0 && IsSpace(s[0]) then TrimSpace(s[1..])
    else if |s| > 0 && IsSpace(s[|s| - 1]) then TrimSpace(s[..|s| - 1])
    else s
  }

  /** `s` is `x` with some white space before it and some after it. */
  ghost predicate Padded(s: string, x: string)
  {
    exists pre, post :: AllSpaces(pre) && AllSpaces(post) && s == pre + (x + post)
  }

  /** Leading white space does not change what TrimSpace returns. */
  lemma {:induction false} TrimLeading(pre: string, y: string)
    requires AllSpaces(pre)
    ensures TrimSpace(pre + y) == TrimSpace(y)
    decreases |pre|
  {
    if |pre| == 0 {
      assert pre + y == y;
    } else {
      var s := pre + y;
      assert s[0] == pre[0];
      assert s[1..] == pre[1..] + y;
      TrimLeading(pre[1..], y);
    }
  }

  /** Trailing white space does not change what TrimSpace returns, once the
      text it follows does not itself start with white space. */
  lemma {:induction false} TrimTrailing(x: string, post: string)
    requires AllSpaces(post)
    requires x == [] || !IsSpace(x[0])
    ensures TrimSpace(x + post) == TrimSpace(x)
    decreases |post|
  {
    var s := x + post;
    if |post| == 0 {
      assert s == x;
    } else if |x| == 0 {
      assert s == post && s[0] == post[0];
      assert s[1..] == x + post[1..];
      TrimTrailing(x, post[1..]);
    } else {
      assert s[0] == x[0];
      assert s[|s| - 1] == post[|post| - 1];
      assert s[..|s| - 1] == x + post[..|post| - 1];
      TrimTrailing(x, post[..|post| - 1]);
    }
  }

  /** Text that neither starts nor ends with white space is left as it is. */
  lemma TrimSpaceKeeps(x: string)
    requires x == [] || (!IsSpace(x[0]) && !IsSpace(x[|x| - 1]))
    ensures TrimSpace(x) == x
  {
  }

  /** TrimSpace removes exactly the white space around the text and keeps
      the text itself, whatever white space surrounds it. */
  lemma TrimSpaceStrips(pre: string, x: string, post: string)
    requires AllSpaces(pre) && AllSpaces(post)
    requires x == [] || (!IsSpace(x[0]) && !IsSpace(x[|x| - 1]))
    ensures TrimSpace(pre + (x + post)) == x
  {
    TrimLeading(pre, x + post);
    TrimTrailing(x, post);
    TrimSpaceKeeps(x);
  }

  /** One more white-space character in front of white space. */
  lemma AllSpacesCons(c: char, pre: string)
    requires IsSpace(c) && AllSpaces(pre)
    ensures AllSpaces([c] + pre)
  {
  }

  /** One more white-space character after white space. */
  lemma AllSpacesSnoc(post: string, c: char)
    requires AllSpaces(post) && IsSpace(c)
    ensures AllSpaces(post + [c])
  {
  }

  /** Concatenation regrouped around a character added in front. */
  lemma RegroupCons(c: char, pre: string, x: string, post: string)
    ensures [c] + (pre + (x + post)) == ([c] + pre) + (x + post)
  {
  }

  /** Concatenation regrouped around a character added at the end. */
  lemma RegroupSnoc(pre: string, x: string, post: string, c: char)
    ensures (pre + (x + post)) + [c] == pre + (x + (post + [c]))
  {
  }

  /** Every text is what TrimSpace returns with white space around it:
      TrimSpace removes white space only, and only at the two ends. The
      white space on either side is returned. */
  lemma {:induction false} TrimSpaceSplit(s: string) returns (pre: string, post: string)
    ensures AllSpaces(pre) && AllSpaces(post)
    ensures s == pre + (TrimSpace(s) + post)
    decreases |s|
  {
    if |s| > 0 && IsSpace(s[0]) {
      var t := s[1..];
      assert s == [s[0]] + t;
      var pre', post' := TrimSpaceSplit(t);
      RegroupCons(s[0], pre', TrimSpace(t), post');
      AllSpacesCons(s[0], pre');
      pre, post := [s[0]] + pre', post';
    } else if |s| > 0 && IsSpace(s[|s| - 1]) {
      var t := s[..|s| - 1];
      assert s == t + [s[|s| - 1]];
      var pre', post' := TrimSpaceSplit(t);
      RegroupSnoc(pre', TrimSpace(t), post', s[|s| - 1]);
      AllSpacesSnoc(post', s[|s| - 1]);
      pre, post := pre', post' + [s[|s| - 1]];
    } else {
      pre, post := [], [];
    }
  }
}
