/**
 The monetary `Value` shared by db/db.go and main.go: an integer count of
 minor units, printed with the pattern `%d.%02d` followed by a currency
 suffix and read back with the same pattern through `fmt.Sscanf`. Both
 source files compute exactly this; they differ only in the suffix
 constant they pass, so the pattern's suffix and the ratio of minor to
 major units are parameters here.
 */
module Money {
  import opened Options
  import opened GoArith
  import opened Text

  /** Go's `type Value int`, taken as an unbounded integer. */
  type Value = int

  /** `Value.Add`: plain integer addition. */
  function Add(v: Value, a: Value): Value
  {
    v + a
  }

  /** Add is exact addition: zero is its identity, and it is commutative
      and associative. */
  lemma AddLaws(a: Value, b: Value, c: Value)
    ensures Add(a, 0) == a && Add(0, a) == a
    ensures Add(a, b) == Add(b, a)
    ensures Add(Add(a, b), c) == Add(a, Add(b, c))
  {
  }

  /** `Value.String`: `fmt.Sprintf("%d.%02d" + suffix, v / ratio, v % ratio)`
      with Go's truncating division. */
  function Render(v: Value, suffix: string, ratio: int): string
    requires ratio != 0
  {
    Decimal(GoDiv(v, ratio)) + "." + ZeroPad2(GoMod(v, ratio)) + suffix
  }

  /** The outcome of scanning `%d.%02d` + suffix: the two integer fields
      that were assigned, in order, and whether the whole pattern matched. */
  datatype Scanned = Scanned(major: Option<IntToken>, minor: Option<IntToken>, complete: bool)
  {
    /** The count `fmt.Sscanf` returns: how many operands were assigned. */
    function Count(): nat
    {
      if major.None? then 0 else if minor.None? then 1 else 2
    }
  }

  /** The end of a field of width two starting at `j`. */
  function Width2(s: string, j: nat): nat
    requires j <= |s|
  {
    if j + 2 <= |s| then j + 2 else |s|
  }

  /** `fmt.Sscanf(s, "%d.%02d" + suffix, &maj, &min)`, for a suffix holding no
      white space and no `%`. Scanning stops at the first field or literal
      that does not match; fields read before that point keep their values.
      The `%02d` field reads at most two characters, sign included, after
      skipping white space. */
  function Scan(s: string, suffix: string): (r: Scanned)
    ensures r.minor.Some? ==> r.major.Some?
    ensures r.complete ==> r.minor.Some?
  {
    match SkipSpace(s, 0)
    case None => Scanned(None, None, false)
    case Some(i) =>
      match ScanInt(s, i, |s|)
      case None => Scanned(None, None, false)
      case Some(maj) => ScanAfterMajor(s, suffix, maj)
  }

  /** The rest of the scan once the major field holds `maj`: the literal
      `.`, the `%02d` field and the suffix. */
  function ScanAfterMajor(s: string, suffix: string, maj: IntToken): (r: Scanned)
    requires maj.end <= |s|
    ensures r.major == Some(maj)
    ensures r.complete ==> r.minor.Some?
  {
    if maj.end == |s| || s[maj.end] != '.' then Scanned(Some(maj), None, false)
    else
      match SkipSpace(s, maj.end + 1)
      case None => Scanned(Some(maj), None, false)
      case Some(j) =>
        match ScanInt(s, j, Width2(s, j))
        case None => Scanned(Some(maj), None, false)
        case Some(min) => Scanned(Some(maj), Some(min), suffix <= s[min.end..])
  }

  /** The value a scanned operand holds afterwards: what was read, or the
      zero it was declared with. */
  function Assigned(t: Option<IntToken>): int
  {
    if t.Some? then t.value.Value() else 0
  }

  /** `Parse`: scan the pattern, discard the scan error and combine the
      fields as `maj * ratio + min % ratio`. */
  function Parse(s: string, suffix: string, ratio: int): Value
    requires ratio != 0
  {
    var sc := Scan(s, suffix);
    Assigned(sc.major) * ratio + GoMod(Assigned(sc.minor), ratio)
  }

  /** The suffix decides only whether the scan reports a complete match;
      the fields, and so Parse's result, never depend on it. */
  lemma ParseIgnoresSuffix(s: string, suffix: string, other: string, ratio: int)
    requires ratio != 0
    ensures Scan(s, suffix).major == Scan(s, other).major
    ensures Scan(s, suffix).minor == Scan(s, other).minor
    ensures Parse(s, suffix, ratio) == Parse(s, other, ratio)
  {
  }

  /** A run of digits, with a minus sign in front when `negative`. */
  function Signed(negative: bool, ds: string): string
  {
    if negative then "-" + ds else ds
  }

  /** The text `%d.%02d` + suffix prints for a major part given by its sign
      and magnitude and a non-negative minor part below 100. */
  function Shaped(negative: bool, major: nat, minor: nat, suffix: string): string
    requires minor < 100
  {
    Signed(negative, NatDigits(major)) + "." + TwoDigits(minor) + suffix
  }

  /** Concatenation regrouped after its first operand. */
  lemma Regroup(a: string, b: string, c: string, d: string)
    ensures a + b + c + d == a + (b + c + d)
  {
  }

  /** Scanning text that starts with a token and a `.` followed by a token
      within two characters assigns both fields. */
  lemma ScanBoth(s: string, suffix: string, maj: IntToken, min: IntToken)
    requires 0 < |s| && !IsSpace(s[0])
    requires ScanInt(s, 0, |s|) == Some(maj)
    requires maj.end + 1 < |s| && s[maj.end] == '.' && !IsSpace(s[maj.end + 1])
    requires ScanInt(s, maj.end + 1, Width2(s, maj.end + 1)) == Some(min)
    ensures Scan(s, suffix) == Scanned(Some(maj), Some(min), suffix <= s[min.end..])
  {
    assert SkipSpace(s, 0) == Some(0);
    assert Scan(s, suffix) == ScanAfterMajor(s, suffix, maj);
    assert SkipSpace(s, maj.end + 1) == Some(maj.end + 1);
  }

  /** Text that starts with an optionally negated run of digits followed by
      a non-digit reads that number in its `%d` field. */
  lemma ScanLeadingInt(negative: bool, ds: string, rest: string)
    requires 0 < |ds| && AllDigits(ds) && 0 < |rest| && !IsDigit(rest[0])
    ensures var s := Signed(negative, ds) + rest;
      && !IsSpace(s[0]) && s[|Signed(negative, ds)|] == rest[0]
      && ScanInt(s, 0, |s|) == Some(IntToken(negative, DecodeDigits(ds), |Signed(negative, ds)|))
  {
    var s := Signed(negative, ds) + rest;
    var k := |Signed(negative, ds)|;
    assert s[k] == rest[0];
    if negative {
      assert s[0] == '-' && s[1..k] == ds;
      ScanNegativeOf(s, 0, |s|, ds);
    } else {
      assert s[0] == ds[0] && s[0..k] == ds;
      ScanUnsignedOf(s, 0, |s|, ds);
    }
  }

  /** Unsigned digits `ds` after some text `pre`, read up to `end`, which is
      either where they stop or lies beyond a non-digit that follows them. */
  lemma ScanDigitsIn(pre: string, ds: string, rest: string, end: nat)
    requires 0 < |ds| && AllDigits(ds)
    requires |pre| + |ds| <= end <= |pre| + |ds| + |rest|
    requires end == |pre| + |ds| || (0 < |rest| && !IsDigit(rest[0]))
    ensures var s := pre + ds + rest;
      && !IsSpace(s[|pre|]) && s[|pre| + |ds|..] == rest
      && ScanInt(s, |pre|, end) == Some(IntToken(false, DecodeDigits(ds), |pre| + |ds|))
  {
    var s := pre + ds + rest;
    var j := |pre|;
    assert s[j] == ds[0] && s[j..j + |ds|] == ds;
    assert s[j + |ds|..] == rest;
    if end != j + |ds| {
      assert s[j + |ds|] == rest[0];
    }
    ScanUnsignedOf(s, j, end, ds);
  }

  /** Scanning `sign digits . two-digits suffix` recovers the sign, the
      digits of both fields, and matches the whole pattern. */
  lemma ScanLayout(negative: bool, ds: string, td: string, suffix: string)
    requires 0 < |ds| && AllDigits(ds) && |td| == 2 && AllDigits(td)
    ensures var k := |Signed(negative, ds)|;
      Scan(Signed(negative, ds) + "." + td + suffix, suffix)
      == Scanned(Some(IntToken(negative, DecodeDigits(ds), k)), Some(IntToken(false, DecodeDigits(td), k + 3)), true)
  {
    var lead := Signed(negative, ds);
    var s := lead + "." + td + suffix;
    var k := |lead|;
    Regroup(lead, ".", td, suffix);
    ScanLeadingInt(negative, ds, "." + td + suffix);
    assert s[k] == '.';
    ScanDigitsIn(lead + ".", td, suffix, k + 3);
    assert Width2(s, k + 1) == k + 3 && s[k + 3..] == suffix;
    ScanBoth(s, suffix, IntToken(negative, DecodeDigits(ds), k), IntToken(false, DecodeDigits(td), k + 3));
  }

  /** Scanning a shaped text recovers its sign, its major magnitude and its
      minor part, and matches the whole pattern. */
  lemma ScanShaped(negative: bool, major: nat, minor: nat, suffix: string)
    requires minor < 100
    ensures var k := |Signed(negative, NatDigits(major))|;
      Scan(Shaped(negative, major, minor, suffix), suffix)
      == Scanned(Some(IntToken(negative, major, k)), Some(IntToken(false, minor, k + 3)), true)
  {
    ScanLayout(negative, NatDigits(major), TwoDigits(minor), suffix);
  }

  /** For a non-negative value, String writes the major part `v / ratio` and
      the minor part `v % ratio`, which lies in [0, ratio), as exactly two
      digits. */
  lemma RenderNonNegative(v: Value, suffix: string, ratio: int)
    requires 0 <= v && 0 < ratio <= 100
    ensures 0 <= v % ratio < ratio
    ensures Render(v, suffix, ratio) == Shaped(false, v / ratio, v % ratio, suffix)
  {
    GoDivModNonNegative(v, ratio);
    ZeroPad2Small(v % ratio);
  }

  /** For a negative value that is not a whole number of major units, Go's
      truncating `%` yields a negative minor part, so a second minus sign is
      printed in the minor slot. */
  lemma RenderNegativeMinor(v: Value, suffix: string, ratio: int)
    requires v < 0 < ratio && (-v) % ratio != 0
    ensures Render(v, suffix, ratio)
         == Decimal(-((-v) / ratio)) + "." + ("-" + NatDigits((-v) % ratio)) + suffix
  {
    GoDivModNegative(v, ratio);
  }

  /** The value Parse assigns from a scan that read both fields. */
  lemma ParseScanned(s: string, suffix: string, ratio: int, a: int, b: int)
    requires ratio != 0 && Abs(b) < Abs(ratio)
    requires Assigned(Scan(s, suffix).major) == a && Assigned(Scan(s, suffix).minor) == b
    ensures Parse(s, suffix, ratio) == a * ratio + b
  {
    GoModSmall(b, ratio);
  }

  /** Parse inverts String on every non-negative value, for any suffix and
      any ratio up to 100 (the minor part then always fits `%02d`); the scan
      assigns both fields and matches the whole pattern. */
  lemma RoundTrip(v: Value, suffix: string, ratio: int)
    requires 0 <= v && 0 < ratio <= 100
    ensures Scan(Render(v, suffix, ratio), suffix).Count() == 2
    ensures Scan(Render(v, suffix, ratio), suffix).complete
    ensures Parse(Render(v, suffix, ratio), suffix, ratio) == v
  {
    var major, minor := v / ratio, v % ratio;
    RenderNonNegative(v, suffix, ratio);
    ScanShaped(false, major, minor, suffix);
    ParseScanned(Render(v, suffix, ratio), suffix, ratio, major, minor);
    Recompose(v, ratio);
  }

  /** Scanning `sign digits . - two-digits suffix`: the width-two minor
      field reads only the minus sign and the first of the two digits. */
  lemma ScanNegativeLayout(negative: bool, ds: string, td: string, suffix: string)
    requires 0 < |ds| && AllDigits(ds) && |td| == 2 && AllDigits(td)
    ensures var s := Signed(negative, ds) + "." + ("-" + td) + suffix;
      var k := |Signed(negative, ds)|;
      && Scan(s, suffix).major == Some(IntToken(negative, DecodeDigits(ds), k))
      && Scan(s, suffix).minor == Some(IntToken(true, DigitValue(td[0]), k + 3))
  {
    var lead := Signed(negative, ds);
    var s := lead + "." + ("-" + td) + suffix;
    var k := |lead|;
    Regroup(lead, ".", "-" + td, suffix);
    ScanLeadingInt(negative, ds, "." + ("-" + td) + suffix);
    assert s[k + 1] == '-' && s[k + 2..k + 3] == [td[0]] by {
      assert s == (lead + ".") + ("-" + td) + suffix;
    }
    DecodeOne(td[0]);
    ScanNegativeOf(s, k + 1, k + 3, [td[0]]);
    ScanBoth(s, suffix, IntToken(negative, DecodeDigits(ds), k), IntToken(true, DigitValue(td[0]), k + 3));
  }

  /** What String prints for a negative value with a two-digit minor part:
      the truncated major part with its sign, a point, a minus sign and the
      two minor digits. */
  lemma NegativeRenderLayout(v: Value, suffix: string)
    requires v < 0 && 10 <= (-v) % 100
    ensures var q, m := (-v) / 100, (-v) % 100;
      Render(v, suffix, 100) == Signed(q != 0, NatDigits(q)) + "." + ("-" + TwoDigits(m)) + suffix
  {
    var q, m := (-v) / 100, (-v) % 100;
    RenderNegativeMinor(v, suffix, 100);
    assert Decimal(-q) == Signed(q != 0, NatDigits(q));
    ZeroPad2Small(m);
  }

  /** Scanning what String prints for a negative value with a two-digit
      minor part assigns the major part and the negated first minor digit. */
  lemma ScanNegativeRendered(v: Value, suffix: string)
    requires v < 0 && 10 <= (-v) % 100
    ensures Assigned(Scan(Render(v, suffix, 100), suffix).major) == -((-v) / 100)
    ensures Assigned(Scan(Render(v, suffix, 100), suffix).minor) == -((-v) % 100 / 10)
  {
    var q, m := (-v) / 100, (-v) % 100;
    NegativeRenderLayout(v, suffix);
    ScanNegativeLayout(q != 0, NatDigits(q), TwoDigits(m), suffix);
  }

  /** As written, the round trip fails for every negative value whose minor
      part has two digits: the width-two field reads the minus sign and the
      first digit only, so Parse returns the major part minus a tenth of the
      minor part. */
  lemma NegativeRoundTripFails(v: Value, suffix: string)
    requires v < 0 && 10 <= (-v) % 100
    ensures Parse(Render(v, suffix, 100), suffix, 100) == -((-v) / 100) * 100 - (-v) % 100 / 10
    ensures Parse(Render(v, suffix, 100), suffix, 100) != v
  {
    var q := (-v) / 100;
    var m := (-v) % 100;
    ScanNegativeRendered(v, suffix);
    ParseScanned(Render(v, suffix, 100), suffix, 100, -q, -(m / 10));
    assert v == -q * 100 - m;
  }

  /** -150 prints with the major part -1 and a minus sign in the minor slot. */
  lemma NegativeRenderExample(suffix: string)
    ensures Render(-150, suffix, 100) == "-1.-50" + suffix
  {
    NegativeRenderLayout(-150, suffix);
    assert NatDigits(1) == "1" && TwoDigits(50) == "50";
    assert Signed(true, "1") + "." + ("-" + "50") == "-1.-50";
  }

  /** For example, -150 prints as "-1.-50" and reads back as -105. */
  lemma NegativeRoundTripExample(suffix: string)
    ensures Render(-150, suffix, 100) == "-1.-50" + suffix
    ensures Parse(Render(-150, suffix, 100), suffix, 100) == -105
  {
    NegativeRenderExample(suffix);
    NegativeRoundTripFails(-150, suffix);
  }

  /** Sscanf assigns the major field exactly when the text starts with an
      integer; otherwise it assigns no field at all. */
  lemma ScanFindsInteger(s: string, suffix: string)
    ensures Scan(s, suffix).major.Some? <==> StartsWithInt(s)
    ensures Scan(s, suffix).major.None? ==> Scan(s, suffix).Count() == 0
  {
    SkipSpaceFindsInt(s);
    match SkipSpace(s, 0)
    case None =>
    case Some(i) =>
      if i < |s| {
        ScanIntAt(s, i);
      }
  }

  /** Text in which `%d` finds no integer parses to 0: no field is assigned,
      both keep their initial 0, and the scan error is discarded. This holds
      for the empty text, a word, a line that starts with a newline, and a
      sign that no digit follows. */
  lemma ParseNoLeadingInteger(s: string, suffix: string, ratio: int)
    requires ratio != 0
    requires !StartsWithInt(s)
    ensures Scan(s, suffix).Count() == 0
    ensures Parse(s, suffix, ratio) == 0
  {
    ScanFindsInteger(s, suffix);
  }

  /** Text holding only a run of digits, followed by anything but a point
      or a digit, assigns the major field alone. */
  lemma ScanMajorOnly(ds: string, rest: string, suffix: string)
    requires 0 < |ds| && AllDigits(ds)
    requires rest == [] || (rest[0] != '.' && !IsDigit(rest[0]))
    ensures Scan(ds + rest, suffix) == Scanned(Some(IntToken(false, DecodeDigits(ds), |ds|)), None, false)
  {
    var s := ds + rest;
    assert s[0] == ds[0] && s[0..|ds|] == ds;
    if rest != [] {
      assert s[|ds|] == rest[0];
    }
    ScanUnsignedOf(s, 0, |s|, ds);
    assert SkipSpace(s, 0) == Some(0);
  }

  /** Text holding only a major integer parses to that many major units: the
      minor field is never assigned and stays 0. */
  lemma ParseMajorOnly(a: nat, rest: string, suffix: string, ratio: int)
    requires ratio != 0
    requires rest == [] || (rest[0] != '.' && !IsDigit(rest[0]))
    ensures Scan(NatDigits(a) + rest, suffix).Count() == 1
    ensures Parse(NatDigits(a) + rest, suffix, ratio) == a * ratio
  {
    ScanMajorOnly(NatDigits(a), rest, suffix);
  }

  /** Digits, a point and a single digit followed by a non-digit: the minor
      field reads the one digit. */
  lemma ScanOneMinorDigit(ds: string, c: char, rest: string, suffix: string)
    requires 0 < |ds| && AllDigits(ds) && IsDigit(c)
    requires rest == [] || !IsDigit(rest[0])
    ensures var s := ds + "." + [c] + rest;
      && Scan(s, suffix).major == Some(IntToken(false, DecodeDigits(ds), |ds|))
      && Scan(s, suffix).minor == Some(IntToken(false, DigitValue(c), |ds| + 2))
  {
    var s := ds + "." + [c] + rest;
    var k := |ds|;
    Regroup(ds, ".", [c], rest);
    ScanLeadingInt(false, ds, "." + [c] + rest);
    ScanDigitsIn(ds + ".", [c], rest, Width2(s, k + 1));
    DecodeOne(c);
    ScanBoth(s, suffix, IntToken(false, DecodeDigits(ds), k), IntToken(false, DigitValue(c), k + 2));
  }

  /** The minor field is read as a plain integer and not scaled: a single
      digit `d` after the point adds `d` minor units, not `10 * d`. */
  lemma ParseMinorUnscaled(a: nat, d: nat, rest: string, suffix: string, ratio: int)
    requires d < 10 && d < ratio
    requires rest == [] || !IsDigit(rest[0])
    ensures Parse(NatDigits(a) + "." + [Digit(d)] + rest, suffix, ratio) == a * ratio + d
  {
    ScanOneMinorDigit(NatDigits(a), Digit(d), rest, suffix);
    ParseScanned(NatDigits(a) + "." + [Digit(d)] + rest, suffix, ratio, a, d);
  }

  /** String with the minor part printed as a magnitude and the sign written
      once in front, which `%d` alone cannot do for a major part of zero. */
  function RenderSigned(v: Value, suffix: string, ratio: int): string
    requires 0 < ratio
  {
    Signed(v < 0, NatDigits(Abs(v) / ratio)) + "." + ZeroPad2(Abs(v) % ratio) + suffix
  }

  /** Parse reading the sign of the major field as the sign of the whole value. */
  function ParseSigned(s: string, suffix: string, ratio: int): Value
    requires ratio != 0
  {
    var sc := Scan(s, suffix);
    var units := (if sc.major.Some? then sc.major.value.magnitude else 0) * ratio
               + GoMod(Assigned(sc.minor), ratio);
    if sc.major.Some? && sc.major.value.negative then -units else units
  }

  /** RenderSigned prints what String prints on every non-negative value. */
  lemma RenderSignedAgrees(v: Value, suffix: string, ratio: int)
    requires 0 <= v && 0 < ratio <= 100
    ensures RenderSigned(v, suffix, ratio) == Render(v, suffix, ratio)
  {
    GoDivModNonNegative(v, ratio);
  }

  /** RenderSigned prints the shaped text of the sign, the major magnitude
      and the minor magnitude. */
  lemma RenderSignedShaped(v: Value, suffix: string, ratio: int)
    requires 0 < ratio <= 100
    ensures Abs(v) % ratio < 100
    ensures RenderSigned(v, suffix, ratio) == Shaped(v < 0, Abs(v) / ratio, Abs(v) % ratio, suffix)
  {
    ZeroPad2Small(Abs(v) % ratio);
  }

  /** The value ParseSigned assigns from a scan that read both fields. */
  lemma ParseSignedScanned(s: string, suffix: string, ratio: int, negative: bool, a: int, b: int, k: nat)
    requires 0 <= a && 0 <= b < ratio
    requires Scan(s, suffix).major == Some(IntToken(negative, a, k))
    requires Scan(s, suffix).minor == Some(IntToken(false, b, k + 3))
    ensures ParseSigned(s, suffix, ratio) == if negative then -(a * ratio + b) else a * ratio + b
  {
    GoModSmall(b, ratio);
  }

  /** The corrected pair round-trips every value, negative ones included. */
  lemma SignedRoundTrip(v: Value, suffix: string, ratio: int)
    requires 0 < ratio <= 100
    ensures Scan(RenderSigned(v, suffix, ratio), suffix).complete
    ensures ParseSigned(RenderSigned(v, suffix, ratio), suffix, ratio) == v
  {
    var major, minor := Abs(v) / ratio, Abs(v) % ratio;
    RenderSignedShaped(v, suffix, ratio);
    ScanShaped(v < 0, major, minor, suffix);
    var k := |Signed(v < 0, NatDigits(major))|;
    ParseSignedScanned(RenderSigned(v, suffix, ratio), suffix, ratio, v < 0, major, minor, k);
    Recompose(Abs(v), ratio);
  }
}
