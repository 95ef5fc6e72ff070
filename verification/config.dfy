/** `config.go`: the project configuration records and the text codec of
    `Version`, which prints with `fmt.Sprintf("%d.%d.%d", …)` and reads
    back with `fmt.Sscanf(…, "%d.%d.%d", …)`. */
module Configuration {
  import opened Optional
  import opened ByteSeq

  const MinInt: int := -0x8000_0000_0000_0000
  const MaxInt: int := 0x7FFF_FFFF_FFFF_FFFF

  /** Go's `int` on a 64-bit platform. */
  type GoInt = x: int | MinInt <= x <= MaxInt

  datatype Version = Version(major: GoInt, minor: GoInt, patch: GoInt)

  datatype Maintainer = Maintainer(name: string, email: string)

  datatype Config = Config(pkg: string, maintainer: Maintainer, url: string, repo: string,
                           org: string, version: Version)

  /** The zero value of `Version`. */
  const ZeroVersion := Version(0, 0, 0)

  // -----------------------------------------------------------------------
  // Printing: `%d`.
  // -----------------------------------------------------------------------

  predicate IsDigit(c: char)
  {
    '0' <= c <= '9'
  }

  predicate AllDigits(s: string)
  {
    forall i :: 0 <= i < |s| ==> IsDigit(s[i])
  }

  function DigitChar(d: int): (c: char)
    requires 0 <= d < 10
    ensures IsDigit(c) && c as int - '0' as int == d
  {
    ('0' as int + d) as char
  }

  /** The decimal digits of `n`, most significant first, without leading
      zeros. */
  function Digits(n: nat): (s: string)
    ensures |s| > 0 && AllDigits(s)
    ensures |s| > 1 ==> s[0] != '0'
  {
    if n < 10 then [DigitChar(n)] else Digits(n / 10) + [DigitChar(n % 10)]
  }

  /** `%d` of an integer: a `-` for negative values, then the digits of
      the magnitude. */
  function Itoa(x: int): (s: string)
    ensures |s| > 0 && (s[0] == '-' || IsDigit(s[0]))
    ensures IsAscii(s)
  {
    if x < 0 then "-" + Digits(-x) else Digits(x)
  }

  /** `Version.String` (config.go:11-13). */
  function String(v: Version): (s: string)
    ensures IsAscii(s)
  {
    Itoa(v.major) + "." + Itoa(v.minor) + "." + Itoa(v.patch)
  }

  /** `Version.MarshalJSON` (config.go:15-17): the bytes of `String`,
      unquoted, and never an error. */
  function MarshalJSON(v: Version): (r: (Bytes, Option<Error>))
    ensures r.1.None?
    ensures Text(r.0) == String(v)
  {
    TextOfAscii(String(v));
    (AsciiBytes(String(v)), None)
  }

  // -----------------------------------------------------------------------
  // Scanning: `fmt.Sscanf` with the format `%d.%d.%d`.
  // -----------------------------------------------------------------------

  /** The errors `Sscanf` can return for this format. */
  datatype Error =
    | EOF                     // `io.EOF`: input ended where a number, or its digits after a sign, was due
    | UnexpectedEOF           // `io.ErrUnexpectedEOF`: input ended where the literal `.` was due
    | UnexpectedNewline       // "unexpected newline" while skipping space before a number
    | ExpectedInteger         // "expected integer": no digit where a number was due
    | OutOfRange(tok: string) // `strconv.ParseInt`: the number does not fit in 64 bits
    | InputMismatch           // "input does not match format": not a `.` where one was due

  /** The space characters of the fmt scanner (`isSpace`). */
  predicate IsSpace(c: char)
  {
    var n := c as int;
    || 0x09 <= n <= 0x0d || n == 0x20 || n == 0x85 || n == 0xa0 || n == 0x1680
    || 0x2000 <= n <= 0x200a || n == 0x2028 || n == 0x2029 || n == 0x202f
    || n == 0x205f || n == 0x3000
  }

  /** Where `SkipSpace` stops: at the first character that is not a
      space, or at a newline, which `Sscanf` does not treat as space. */
  function SpaceEnd(s: string, j: nat): (k: nat)
    requires j <= |s|
    ensures j <= k <= |s|
    ensures k < |s| ==> !IsSpace(s[k]) || s[k] == '\n'
    ensures j < |s| && !IsSpace(s[j]) ==> k == j
    decreases |s| - j
  {
    if j < |s| && IsSpace(s[j]) && s[j] != '\n' then SpaceEnd(s, j + 1) else j
  }

  /** The end of the longest run of digits starting at `j`. */
  function DigitRun(s: string, j: nat): (k: nat)
    requires j <= |s|
    ensures j <= k <= |s|
    ensures k > j ==> IsDigit(s[k - 1])
    ensures k < |s| ==> !IsDigit(s[k])
    decreases |s| - j
  {
    if j < |s| && IsDigit(s[j]) then DigitRun(s, j + 1) else j
  }

  /** The value of a run of decimal digits. */
  function Value(d: string): int
  {
    if |d| == 0 then 0 else Value(d[..|d| - 1]) * 10 + (d[|d| - 1] as int - '0' as int)
  }

  /** A scan step: what was read and where the input continues, or the
      error that stopped `Sscanf`. */
  datatype Scanned<T> = Scanned(value: T, next: nat) | Failed(err: Error)

  /** A magnitude with the sign character before it applied. */
  function Signed(sign: char, n: int): int
  {
    if sign == '-' then -n else n
  }

  /** The number part of `%d` at `k`: an optional sign, a run of digits,
      and the check that the value fits in 64 bits. The input must not end
      right after the sign. */
  function ScanNumber(s: string, k: nat): (r: Scanned<GoInt>)
    requires k < |s|
    ensures r.Scanned? ==> k < r.next <= |s| && IsDigit(s[r.next - 1])
    ensures r.Scanned? ==> r.next == |s| || !IsDigit(s[r.next])
  {
    var d := if s[k] == '+' || s[k] == '-' then k + 1 else k;
    var e := DigitRun(s, d);
    if d == |s| then Failed(EOF)
    else if e == d then Failed(ExpectedInteger)
    else
      var x := Signed(s[k], Value(s[d..e]));
      if MinInt <= x <= MaxInt then Scanned(x, e) else Failed(OutOfRange(s[k..e]))
  }

  /** One `%d` into an `int` (`scanInt`): skip space, then read a number;
      the input must not end or break the line first. */
  function ScanInt(s: string, j: nat): (r: Scanned<GoInt>)
    requires j <= |s|
    ensures r.Scanned? ==> j < r.next <= |s| && IsDigit(s[r.next - 1])
    ensures r.Scanned? ==> r.next == |s| || !IsDigit(s[r.next])
  {
    var k := SpaceEnd(s, j);
    if k == |s| then Failed(EOF)
    else if s[k] == '\n' then Failed(UnexpectedNewline)
    else ScanNumber(s, k)
  }

  /** The literal `.` of the format at position `j`. */
  function ExpectDot(s: string, j: nat): (r: Option<Error>)
    requires j <= |s|
    ensures r.None? <==> j < |s| && s[j] == '.'
  {
    if j == |s| then Some(UnexpectedEOF)
    else if s[j] != '.' then Some(InputMismatch)
    else None
  }

  /** The last `.%d` of the format, into `Patch`, after the number that
      ended at `j`. */
  function ScanPatch(s: string, j: nat, v: Version): (r: (Version, Option<Error>))
    requires 0 < j <= |s|
    ensures r.1.None? ==> j < |s| && s[j] == '.'
    ensures r.1.Some? ==> r.0 == v
  {
    if ExpectDot(s, j).Some? then (v, ExpectDot(s, j))
    else
      match ScanInt(s, j + 1)
      case Failed(e) => (v, Some(e))
      case Scanned(c, _) => (v.(patch := c), None)
  }

  /** The first `.%d` of the format, into `Minor`, after the number that
      ended at `i`, followed by the rest. */
  function ScanMinor(s: string, i: nat, v: Version): (r: (Version, Option<Error>))
    requires 0 < i <= |s|
    ensures r.1.None? ==>
      exists j :: i < j < |s| && s[i] == '.' && s[j] == '.' && IsDigit(s[j - 1])
    ensures r.1.Some? ==> r.0.patch == v.patch
  {
    if ExpectDot(s, i).Some? then (v, ExpectDot(s, i))
    else
      match ScanInt(s, i + 1)
      case Failed(e) => (v, Some(e))
      case Scanned(b, j) => ScanPatch(s, j, v.(minor := b))
  }

  /** `Sscanf(s, "%d.%d.%d", &v.Major, &v.Minor, &v.Patch)`: each field
      is assigned as soon as its number is read, so a failure leaves the
      fields before it updated; input after the third number is ignored. */
  function ScanVersion(s: string, v: Version): (r: (Version, Option<Error>))
    ensures r.1.None? ==>
      exists i, j ::
        0 < i < j < |s| && s[i] == '.' && s[j] == '.' && IsDigit(s[i - 1]) && IsDigit(s[j - 1])
    // a failed scan never reaches the third field
    ensures r.1.Some? ==> r.0.patch == v.patch
  {
    match ScanInt(s, 0)
    case Failed(e) => (v, Some(e))
    case Scanned(a, i) => ScanMinor(s, i, v.(major := a))
  }

  /** `Version.UnmarshalJSON` (config.go:19-22) on the receiver `v`: the
      input read as text and scanned. */
  function UnmarshalJSON(input: Bytes, v: Version): (r: (Version, Option<Error>))
  {
    ScanVersion(Text(input), v)
  }

  // -----------------------------------------------------------------------
  // The round trip and the rejected inputs.
  // -----------------------------------------------------------------------

  /** Reading back the digits `%d` prints gives the number. */
  lemma {:induction false} ValueOfDigits(n: nat)
    ensures Value(Digits(n)) == n
  {
    if n >= 10 {
      var d := Digits(n);
      assert d[..|d| - 1] == Digits(n / 10);
      ValueOfDigits(n / 10);
    }
  }

  /** A digit run stops exactly where the digits do. */
  lemma {:induction false} DigitRunStops(s: string, d: nat, e: nat)
    requires d <= e <= |s| && forall m :: d <= m < e ==> IsDigit(s[m])
    requires e == |s| || !IsDigit(s[e])
    ensures DigitRun(s, d) == e
    decreases e - d
  {
    if d < e {
      DigitRunStops(s, d + 1, e);
    }
  }

  /** A printed magnitude inside a string is a run of digits. */
  lemma DigitsInside(s: string, d: nat, n: nat)
    requires d + |Digits(n)| <= |s| && s[d..d + |Digits(n)|] == Digits(n)
    ensures forall m :: d <= m < d + |Digits(n)| ==> IsDigit(s[m])
  {
    forall m | d <= m < d + |Digits(n)|
      ensures IsDigit(s[m])
    {
      assert s[m] == Digits(n)[m - d];
    }
  }

  /** `%d` reads the digits of a non-negative number, after an optional
      sign at `k`. */
  lemma ScanDigits(s: string, k: nat, d: nat, n: nat)
    requires k <= d <= k + 1 && d + |Digits(n)| <= |s| && s[d..d + |Digits(n)|] == Digits(n)
    requires d == k + 1 <==> s[k] == '+' || s[k] == '-'
    requires d + |Digits(n)| == |s| || !IsDigit(s[d + |Digits(n)|])
    requires MinInt <= Signed(s[k], n) <= MaxInt
    ensures ScanNumber(s, k) == Scanned(Signed(s[k], n), d + |Digits(n)|)
  {
    var e := d + |Digits(n)|;
    assert DigitRun(s, d) == e by {
      DigitsInside(s, d, n);
      DigitRunStops(s, d, e);
    }
    assert Value(s[d..e]) == n by {
      ValueOfDigits(n);
    }
  }

  /** Where no space comes first, `%d` goes straight to the number. */
  lemma NoSpaceFirst(s: string, j: nat)
    requires j < |s| && !IsSpace(s[j])
    ensures ScanInt(s, j) == ScanNumber(s, j)
  {
    assert SpaceEnd(s, j) == j;
  }

  /** `%d` scans a printed negative number. */
  lemma ScanPrintedNegative(s: string, j: nat, m: nat)
    requires 0 < m <= -MinInt
    requires j + 1 + |Digits(m)| <= |s| && s[j] == '-' && s[j + 1..j + 1 + |Digits(m)|] == Digits(m)
    requires j + 1 + |Digits(m)| == |s| || !IsDigit(s[j + 1 + |Digits(m)|])
    ensures ScanInt(s, j) == Scanned(-(m as int), j + 1 + |Digits(m)|)
  {
    assert !IsSpace(s[j]) by {
      assert s[j] as int == 0x2d;
    }
    NoSpaceFirst(s, j);
    NegativeNumber(s, j, m);
  }

  /** The number part of `%d` on a `-` followed by printed digits. */
  lemma NegativeNumber(s: string, j: nat, m: nat)
    requires 0 < m <= -MinInt
    requires j + 1 + |Digits(m)| <= |s| && s[j] == '-' && s[j + 1..j + 1 + |Digits(m)|] == Digits(m)
    requires j + 1 + |Digits(m)| == |s| || !IsDigit(s[j + 1 + |Digits(m)|])
    ensures ScanNumber(s, j) == Scanned(-(m as int), j + 1 + |Digits(m)|)
  {
    assert Signed(s[j], m) == -(m as int);
    ScanDigits(s, j, j + 1, m);
  }

  /** `%d` scans a printed non-negative number. */
  lemma ScanPrintedNatural(s: string, j: nat, n: nat)
    requires n <= MaxInt
    requires j + |Digits(n)| <= |s| && s[j..j + |Digits(n)|] == Digits(n)
    requires j + |Digits(n)| == |s| || !IsDigit(s[j + |Digits(n)|])
    ensures ScanInt(s, j) == Scanned(n, j + |Digits(n)|)
  {
    assert s[j] == Digits(n)[0];
    NoSpaceFirst(s, j);
    ScanDigits(s, j, j, n);
  }

  /** `%d` scans what `%d` printed, stopping right after it. */
  lemma ScanPrinted(s: string, j: nat, x: GoInt)
    requires j + |Itoa(x)| <= |s| && s[j..j + |Itoa(x)|] == Itoa(x)
    requires j + |Itoa(x)| == |s| || !IsDigit(s[j + |Itoa(x)|])
    ensures ScanInt(s, j) == Scanned(x, j + |Itoa(x)|)
  {
    if x < 0 {
      var m: nat := -(x as int);
      assert Itoa(x) == "-" + Digits(m);
      var e := j + 1 + |Digits(m)|;
      assert s[j] == '-' && s[j + 1..e] == Digits(m) by {
        assert s[j..e] == "-" + Digits(m);
        assert s[j + 1..e] == s[j..e][1..];
      }
      ScanPrintedNegative(s, j, m);
    } else {
      assert Itoa(x) == Digits(x);
      ScanPrintedNatural(s, j, x);
    }
  }

  /** A dot and a printed number at the end of the input fill `Patch`. */
  lemma PatchPrinted(s: string, j: nat, z: GoInt, v: Version)
    requires 0 < j && j + 1 + |Itoa(z)| == |s| && s[j] == '.' && s[j + 1..|s|] == Itoa(z)
    ensures ScanPatch(s, j, v) == (v.(patch := z), None)
  {
    ScanPrinted(s, j + 1, z);
  }

  /** A dot, a printed number and the printed patch fill `Minor` and
      `Patch`. */
  lemma MinorPrinted(s: string, i: nat, j: nat, y: GoInt, z: GoInt, v: Version)
    requires 0 < i < j && j + 1 + |Itoa(z)| == |s|
    requires s[i] == '.' && j == i + 1 + |Itoa(y)| && s[i + 1..j] == Itoa(y)
    requires s[j] == '.' && s[j + 1..|s|] == Itoa(z)
    ensures ScanMinor(s, i, v) == (v.(minor := y, patch := z), None)
  {
    ScanPrinted(s, i + 1, y);
    PatchPrinted(s, j, z, v.(minor := y));
  }

  /** Where the two dots of a printed `Version` sit. */
  lemma PrintedLayout(v: Version)
    ensures var s, a, b, c := String(v), Itoa(v.major), Itoa(v.minor), Itoa(v.patch);
      && |s| == |a| + 1 + |b| + 1 + |c|
      && s[0..|a|] == a && s[|a|] == '.'
      && s[|a| + 1..|a| + 1 + |b|] == b && s[|a| + 1 + |b|] == '.'
      && s[|a| + 1 + |b| + 1..|s|] == c
  {
  }

  /** Three printed numbers separated by dots scan back to themselves. */
  lemma ScanThree(s: string, i: nat, j: nat, x: GoInt, y: GoInt, z: GoInt, w: Version)
    requires i < j < |s| && s[i] == '.' && s[j] == '.'
    requires i == |Itoa(x)| && s[0..i] == Itoa(x)
    requires j == i + 1 + |Itoa(y)| && s[i + 1..j] == Itoa(y)
    requires |s| == j + 1 + |Itoa(z)| && s[j + 1..|s|] == Itoa(z)
    ensures ScanVersion(s, w) == (Version(x, y, z), None)
  {
    ScanPrinted(s, 0, x);
    MinorPrinted(s, i, j, y, z, w.(major := x));
  }

  /** Scanning a printed `Version` reads back every field. */
  lemma ScanPrintedVersion(v: Version, w: Version)
    ensures ScanVersion(String(v), w) == (v, None)
  {
    var i := |Itoa(v.major)|;
    PrintedLayout(v);
    ScanThree(String(v), i, i + 1 + |Itoa(v.minor)|, v.major, v.minor, v.patch, w);
  }

  /** `UnmarshalJSON` restores exactly what `MarshalJSON` wrote, whatever
      the receiver held before, and reports no error. */
  lemma RoundTrip(v: Version, w: Version)
    ensures UnmarshalJSON(MarshalJSON(v).0, w) == (v, None)
  {
    ScanPrintedVersion(v, w);
  }

  /** The zero `Version` prints as `0.0.0`. */
  lemma ZeroPrints()
    ensures String(ZeroVersion) == "0.0.0"
  {
  }

  /** A missing third component: the first two fields are assigned, the
      third keeps its old value, and the error is `io.ErrUnexpectedEOF`,
      since the input ends where the literal `.` is due. */
  lemma MissingComponent(w: Version)
    ensures UnmarshalJSON(AsciiBytes("1.2"), w) == (w.(major := 1, minor := 2), Some(UnexpectedEOF))
  {
    TextOfAscii("1.2");
    ScanTwoFields(w);
  }

  /** `Sscanf` on `1.2` itself. */
  lemma ScanTwoFields(w: Version)
    ensures ScanVersion("1.2", w) == (w.(major := 1, minor := 2), Some(UnexpectedEOF))
  {
    var s := "1.2";
    assert ScanInt(s, 0) == Scanned(1, 1) by {
      assert s[0..1] == Itoa(1);
      ScanPrinted(s, 0, 1);
    }
    assert ScanInt(s, 2) == Scanned(2, 3) by {
      assert s[2..3] == Itoa(2);
      ScanPrinted(s, 2, 2);
    }
    assert ScanPatch(s, 3, w.(major := 1, minor := 2)) == (w.(major := 1, minor := 2), Some(UnexpectedEOF));
  }

  /** Input that starts with neither space, sign nor digit is rejected
      before any field is assigned. */
  lemma NotANumber(input: Bytes, w: Version)
    requires |input| > 0
    requires var c := Text(input)[0]; !IsSpace(c) && !IsDigit(c) && c != '+' && c != '-'
    ensures UnmarshalJSON(input, w) == (w, Some(ExpectedInteger))
  {
    var s := Text(input);
    NoSpaceFirst(s, 0);
    assert DigitRun(s, 0) == 0;
  }

  /** A number past 64 bits is rejected with the token that overflowed,
      before any field is assigned. */
  lemma TooLarge(input: Bytes, w: Version)
    requires |input| > 0 && AllDigits(Text(input)) && Value(Text(input)) > MaxInt
    ensures UnmarshalJSON(input, w) == (w, Some(OutOfRange(Text(input))))
  {
    var s := Text(input);
    assert IsDigit(s[0]);
    NoSpaceFirst(s, 0);
    assert ScanNumber(s, 0) == Failed(OutOfRange(s)) by {
      DigitRunStops(s, 0, |s|);
      assert s[0..|s|] == s;
      assert Signed(s[0], Value(s)) == Value(s);
    }
  }

  /** Input that ends before the first number, after nothing but spaces
      other than a newline, is `io.EOF`, and no field is assigned. */
  lemma OnlySpace(input: Bytes, w: Version)
    requires forall i :: 0 <= i < |Text(input)| ==> IsSpace(Text(input)[i]) && Text(input)[i] != '\n'
    ensures UnmarshalJSON(input, w) == (w, Some(EOF))
  {
    SpaceToEnd(Text(input), 0);
  }

  lemma {:induction false} SpaceToEnd(s: string, j: nat)
    requires j <= |s| && forall i :: j <= i < |s| ==> IsSpace(s[i]) && s[i] != '\n'
    ensures SpaceEnd(s, j) == |s|
    decreases |s| - j
  {
    if j < |s| {
      SpaceToEnd(s, j + 1);
    }
  }

  /** Empty input is `io.EOF`, as `Sscanf("", "%d")` is. */
  lemma EmptyInput(w: Version)
    ensures UnmarshalJSON([], w) == (w, Some(EOF))
  {
    OnlySpace([], w);
  }

  /** A sign with nothing after it is `io.EOF` too, not "expected
      integer". */
  lemma SignAlone(input: Bytes, w: Version)
    requires |input| == 1 && (Text(input)[0] == '-' || Text(input)[0] == '+')
    ensures UnmarshalJSON(input, w) == (w, Some(EOF))
  {
    var s := Text(input);
    assert !IsSpace(s[0]) by {
      assert s[0] as int == 0x2d || s[0] as int == 0x2b;
    }
    NoSpaceFirst(s, 0);
  }

  /** Input that ends right after a `.`, where the next number is due,
      assigns the field before it and stops with `io.EOF`. */
  lemma TrailingDot(w: Version)
    ensures ScanVersion("1.", w) == (w.(major := 1), Some(EOF))
  {
    var s := "1.";
    assert ScanInt(s, 0) == Scanned(1, 1) by {
      assert s[0..1] == Itoa(1);
      ScanPrinted(s, 0, 1);
    }
    assert ScanInt(s, 2) == Failed(EOF);
  }
}
