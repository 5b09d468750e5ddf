/** The command line of the environment convolution tool: option parsing and
    its text form, the usage test, the image format whitelist, the output
    file name, and the integer rules splitting the work (MIS sample counts,
    pixel coordinates). Image loading, sampling and output are not part of
    this model. */
module EnvironmentConvolution {

  datatype SampleMethod = MIS | Light | BSDF

  datatype Options = Options(sampleMethod: SampleMethod, sampleCount: int)

  const DefaultOptions: Options := Options(BSDF, 256)

  datatype Result<T> = Success(value: T) | Failure(error: string)

  datatype Option<T> = None | Some(value: T)

  // ---------------------------------------------------------------------
  // Integers as text: `atoi` and decimal output.

  predicate IsDigit(c: char) {
    '0' <= c <= '9'
  }

  predicate IsSpace(c: char) {
    c == ' ' || c == '\t' || c == '\n' || c == '\U{000B}' || c == '\U{000C}' || c == '\r'
  }

  function DigitValue(c: char): nat
    requires IsDigit(c)
  {
    (c as int) - ('0' as int)
  }

  function DigitChar(d: nat): (c: char)
    requires d < 10
    ensures IsDigit(c) && DigitValue(c) == d
  {
    (('0' as int) + d) as char
  }

  /** Number of leading white-space characters. */
  function LeadingSpaces(s: string): (k: nat)
    ensures k <= |s| && (k < |s| ==> !IsSpace(s[k]))
    ensures forall j :: 0 <= j < k ==> IsSpace(s[j])
  {
    if |s| > 0 && IsSpace(s[0]) then 1 + LeadingSpaces(s[1..]) else 0
  }

  /** Folds the leading run of digits of `s` into `acc`, most significant first. */
  function ScanDigits(s: string, acc: int): int
  {
    if |s| == 0 || !IsDigit(s[0]) then acc else ScanDigits(s[1..], acc * 10 + DigitValue(s[0]))
  }

  /** The C library's `atoi`: leading white space, an optional sign, then
      as many decimal digits as follow. A text without digits is 0. */
  function Atoi(s: string): int {
    var t := s[LeadingSpaces(s)..];
    if |t| > 0 && t[0] == '-' then -ScanDigits(t[1..], 0)
    else if |t| > 0 && t[0] == '+' then ScanDigits(t[1..], 0)
    else ScanDigits(t, 0)
  }

  /** Decimal digits of `n`, most significant first, without leading zeros. */
  function NatToString(n: nat): (s: string)
    ensures |s| >= 1 && forall i :: 0 <= i < |s| ==> IsDigit(s[i])
  {
    if n < 10 then [DigitChar(n)] else NatToString(n / 10) + [DigitChar(n % 10)]
  }

  /** An `int` as an output stream writes it. */
  function IntToString(n: int): string {
    if n < 0 then "-" + NatToString(-n) else NatToString(n)
  }

  /** Scanning a run of digits and then more text continues from the run's value. */
  lemma {:induction false} ScanDigitsAppend(a: string, b: string, acc: int)
    requires forall i :: 0 <= i < |a| ==> IsDigit(a[i])
    ensures ScanDigits(a + b, acc) == ScanDigits(b, ScanDigits(a, acc))
  {
    if |a| > 0 {
      assert (a + b)[1..] == a[1..] + b;
      ScanDigitsAppend(a[1..], b, acc * 10 + DigitValue(a[0]));
    } else {
      assert a + b == b;
    }
  }

  lemma {:induction false} ScanNatToString(n: nat)
    ensures ScanDigits(NatToString(n), 0) == n
  {
    if n >= 10 {
      ScanNatToString(n / 10);
      ScanDigitsAppend(NatToString(n / 10), [DigitChar(n % 10)], 0);
    }
  }

  /** `atoi` reads back what the output stream wrote. */
  lemma AtoiIntToString(n: int)
    ensures Atoi(IntToString(n)) == n
  {
    var s := IntToString(n);
    if n < 0 {
      ScanNatToString(-n);
      assert s[0] == '-' && !IsSpace(s[0]);
      assert s[1..] == NatToString(-n);
    } else {
      ScanNatToString(n);
      assert IsDigit(s[0]) && !IsSpace(s[0]);
    }
  }

  // ---------------------------------------------------------------------
  // Options.

  predicate IsMethodFlag(a: string) {
    a == "--mis-sampling" || a == "-m" || a == "--light-sampling" || a == "-l"
    || a == "--bsdf-sampling" || a == "-b"
  }

  predicate IsCountFlag(a: string) {
    a == "--sample-count" || a == "-s"
  }

  function MethodOfFlag(a: string): SampleMethod
    requires IsMethodFlag(a)
  {
    if a == "--mis-sampling" || a == "-m" then MIS
    else if a == "--light-sampling" || a == "-l" then Light
    else BSDF
  }

  /** The options after reading `args` from index `i` on, starting from `o`.
      A sample count flag with no argument after it fails: the loop would
      pass a null argument to `atoi`. */
  function ParseFrom(args: seq<string>, i: nat, o: Options): Result<Options>
    decreases |args| - i
  {
    if i >= |args| then Success(o)
    else if IsMethodFlag(args[i]) then ParseFrom(args, i + 1, o.(sampleMethod := MethodOfFlag(args[i])))
    else if IsCountFlag(args[i]) then
      if i + 1 < |args| then ParseFrom(args, i + 2, o.(sampleCount := Atoi(args[i + 1])))
      else Failure("missing sample count")
    else ParseFrom(args, i + 1, o)
  }

  /** Reads the options from the arguments after the program name and the
      image path. */
  method Parse(args: seq<string>) returns (r: Result<Options>)
    ensures r == ParseFrom(args, 2, DefaultOptions)
  {
    var options := DefaultOptions;
    var argument := 2;
    while argument < |args|
      invariant argument >= 2
      invariant ParseFrom(args, 2, DefaultOptions) == ParseFrom(args, argument, options)
      decreases |args| - argument
    {
      var a := args[argument];
      if a == "--mis-sampling" || a == "-m" {
        options := options.(sampleMethod := MIS);
      } else if a == "--light-sampling" || a == "-l" {
        options := options.(sampleMethod := Light);
      } else if a == "--bsdf-sampling" || a == "-b" {
        options := options.(sampleMethod := BSDF);
      } else if a == "--sample-count" || a == "-s" {
        argument := argument + 1;
        if argument >= |args| {
          return Failure("missing sample count");
        }
        options := options.(sampleCount := Atoi(args[argument]));
      }
      argument := argument + 1;
    }
    return Success(options);
  }

  /** A parse that succeeded on `args` carries on unchanged over more arguments. */
  lemma {:induction false} ParseAppend(args: seq<string>, tail: seq<string>, i: nat, o: Options)
    requires i <= |args| && ParseFrom(args, i, o).Success?
    ensures ParseFrom(args + tail, i, o) == ParseFrom(args + tail, |args|, ParseFrom(args, i, o).value)
    decreases |args| - i
  {
    var all := args + tail;
    if i < |args| {
      assert all[i] == args[i];
      if IsMethodFlag(args[i]) {
        ParseAppend(args, tail, i + 1, o.(sampleMethod := MethodOfFlag(args[i])));
      } else if IsCountFlag(args[i]) {
        assert all[i + 1] == args[i + 1];
        ParseAppend(args, tail, i + 2, o.(sampleCount := Atoi(args[i + 1])));
      } else {
        ParseAppend(args, tail, i + 1, o);
      }
    }
  }

  /** Without any recognised flag the defaults stand: BSDF sampling, 256 samples. */
  lemma {:induction false} NoFlagsGiveDefaults(args: seq<string>, i: nat, o: Options)
    requires forall j :: i <= j < |args| ==> !IsMethodFlag(args[j]) && !IsCountFlag(args[j])
    ensures ParseFrom(args, i, o) == Success(o)
    decreases |args| - i
  {
    if i < |args| {
      NoFlagsGiveDefaults(args, i + 1, o);
    }
  }

  /** The last sampling method flag wins, and the sample count stays. */
  lemma LastMethodFlagWins(args: seq<string>, flag: string)
    requires |args| >= 2 && ParseFrom(args, 2, DefaultOptions).Success? && IsMethodFlag(flag)
    ensures var o := ParseFrom(args, 2, DefaultOptions).value;
      ParseFrom(args + [flag], 2, DefaultOptions) == Success(o.(sampleMethod := MethodOfFlag(flag)))
  {
    ParseAppend(args, [flag], 2, DefaultOptions);
  }

  /** A sample count flag takes the next argument through `atoi` and skips
      it; without a next argument the parse fails. */
  lemma SampleCountFlag(args: seq<string>, flag: string, count: string)
    requires |args| >= 2 && ParseFrom(args, 2, DefaultOptions).Success? && IsCountFlag(flag)
    ensures var o := ParseFrom(args, 2, DefaultOptions).value;
      ParseFrom(args + [flag, count], 2, DefaultOptions) == Success(o.(sampleCount := Atoi(count)))
    ensures ParseFrom(args + [flag], 2, DefaultOptions).Failure?
  {
    ParseAppend(args, [flag, count], 2, DefaultOptions);
    ParseAppend(args, [flag], 2, DefaultOptions);
  }

  /** An unrecognised argument is ignored. */
  lemma UnknownArgumentIgnored(args: seq<string>, other: string)
    requires |args| >= 2 && ParseFrom(args, 2, DefaultOptions).Success?
    requires !IsMethodFlag(other) && !IsCountFlag(other)
    ensures ParseFrom(args + [other], 2, DefaultOptions) == ParseFrom(args, 2, DefaultOptions)
  {
    ParseAppend(args, [other], 2, DefaultOptions);
  }

  function MethodText(m: SampleMethod): string {
    match m
    case MIS => "MIS sampling, "
    case Light => "Light sampling, "
    case BSDF => "BSDF sampling, "
  }

  const SamplesSuffix: string := " samples pr pixel."

  /** The one-line description of the options. */
  function ToString(o: Options): string {
    MethodText(o.sampleMethod) + IntToString(o.sampleCount) + SamplesSuffix
  }

  /** The description determines the options: method and count can be read back. */
  lemma ToStringInjective(o1: Options, o2: Options)
    requires ToString(o1) == ToString(o2)
    ensures o1 == o2
  {
    var s := ToString(o1);
    var m1, m2 := MethodText(o1.sampleMethod), MethodText(o2.sampleMethod);
    assert s[0] == m1[0] && s[0] == m2[0];
    assert o1.sampleMethod == o2.sampleMethod;
    var k := |m1|;
    var n1, n2 := IntToString(o1.sampleCount), IntToString(o2.sampleCount);
    assert s[k..|s| - |SamplesSuffix|] == n1;
    assert ToString(o2)[k..|s| - |SamplesSuffix|] == n2;
    AtoiIntToString(o1.sampleCount);
    AtoiIntToString(o2.sampleCount);
  }

  // ---------------------------------------------------------------------
  // The checks in `main` before any image is read.

  /** Usage is shown, with exit code 0, for no argument or a help flag. */
  predicate ShowsUsage(args: seq<string>)
    requires |args| >= 1
  {
    |args| == 1 || args[1] == "-h" || args[1] == "--help"
  }

  const SupportedExtensions: set<string> := {".bmp", ".exr", ".hdr", ".png", ".tga"}

  /** The verdict on an image path, from its last four characters. A path
      shorter than four characters makes the substring constructor throw. */
  datatype FormatCheck = Supported(extension: string) | Unsupported(extension: string) | TooShort

  function CheckFormat(file: string): (r: FormatCheck)
    ensures r.TooShort? <==> |file| < 4
    ensures r.Supported? <==> |file| >= 4 && file[|file| - 4..] in SupportedExtensions
    ensures !r.TooShort? ==> r.extension == file[|file| - 4..]
  {
    if |file| < 4 then TooShort
    else
      var extension := file[|file| - 4..];
      if extension == ".bmp" || extension == ".exr" || extension == ".hdr"
         || extension == ".png" || extension == ".tga"
      then Supported(extension)
      else Unsupported(extension)
  }

  /** How `main` proceeds on its arguments up to loading the image. */
  datatype Outcome =
    | Usage                                   // exit code 0
    | UnsupportedFormat(extension: string)    // exit code 2
    | Aborted                                 // an exception or a crash
    | Convolve(imageFile: string, options: Options)

  function MainOutcome(args: seq<string>): (r: Outcome)
    requires |args| >= 1
    ensures r.Usage? <==> ShowsUsage(args)
    ensures r.UnsupportedFormat? ==> r.extension !in SupportedExtensions
    ensures r.Convolve? ==> r.imageFile == args[1] && CheckFormat(args[1]).Supported?
    ensures r.Convolve? ==> ParseFrom(args, 2, DefaultOptions) == Success(r.options)
  {
    if ShowsUsage(args) then Usage
    else match CheckFormat(args[1])
      case TooShort => Aborted
      case Unsupported(extension) => UnsupportedFormat(extension)
      case Supported(_) =>
        match ParseFrom(args, 2, DefaultOptions)
        case Failure(_) => Aborted
        case Success(options) => Convolve(args[1], options)
  }

  /** Exit code 2 is returned exactly for an image path of at least four
      characters outside the whitelist. */
  lemma UnsupportedExitsWithTwo(args: seq<string>)
    requires |args| >= 1 && !ShowsUsage(args)
    ensures MainOutcome(args).UnsupportedFormat? <==>
      |args[1]| >= 4 && args[1][|args[1]| - 4..] !in SupportedExtensions
  {
  }

  // ---------------------------------------------------------------------
  // Output file name.

  /** Position of the last '.' in `s`. */
  function LastDot(s: string): (r: Option<nat>)
    ensures r.Some? ==> r.value < |s| && s[r.value] == '.'
    ensures r.Some? ==> forall j :: r.value < j < |s| ==> s[j] != '.'
    ensures r.None? ==> forall j :: 0 <= j < |s| ==> s[j] != '.'
    decreases |s|
  {
    if |s| == 0 then None
    else if s[|s| - 1] == '.' then Some(|s| - 1)
    else LastDot(s[..|s| - 1])
  }

  /** The image path with "_roughness_" and the roughness text inserted
      before its last '.'. Without a '.' the substring from it throws. */
  function OutputFileName(file: string, roughness: string): Option<string> {
    match LastDot(file)
    case None => None
    case Some(dot) => Some(file[..dot] + "_roughness_" + roughness + file[dot..])
  }

  /** For an accepted image path there is an output name. It is the path
      with the inserted text between the stem and the extension, which is
      its last '.'-suffix, so removing the inserted text gives the path back
      and the output is written in the input's format. */
  lemma OutputKeepsExtension(file: string, roughness: string)
    requires CheckFormat(file).Supported?
    ensures OutputFileName(file, roughness).Some?
    ensures var name := OutputFileName(file, roughness).value;
      var stem := file[..|file| - 4];
      && |name| == |file| + |"_roughness_"| + |roughness|
      && name[..|stem|] == stem
      && name[|name| - 4..] == file[|file| - 4..]
      && name[..|stem|] + name[|name| - 4..] == file
      && LastDot(name) == Some(|name| - 4)
  {
    var k := |file| - 4;
    var ext := file[k..];
    ExtensionShape(ext);
    forall j | k < j < |file| ensures file[j] != '.' {
      assert file[j] == ext[j - k];
    }
    LastDotOfSuffix(file, k);
    assert file[..k] + ext == file;
    SpliceFacts(file[..k], "_roughness_" + roughness, ext);
  }

  /** Every whitelisted extension is a '.' and three other characters. */
  lemma ExtensionShape(ext: string)
    requires ext in SupportedExtensions
    ensures |ext| == 4 && ext[0] == '.' && ext[1] != '.' && ext[2] != '.' && ext[3] != '.'
  {
  }

  /** The parts of `stem + mid + suffix` for a '.'-suffix without another '.'. */
  lemma SpliceFacts(stem: string, mid: string, suffix: string)
    requires |suffix| == 4 && suffix[0] == '.' && suffix[1] != '.' && suffix[2] != '.' && suffix[3] != '.'
    ensures var name := stem + mid + suffix;
      && name[..|stem|] == stem && name[|name| - 4..] == suffix
      && LastDot(name) == Some(|name| - 4)
  {
    var name := stem + mid + suffix;
    var k := |name| - 4;
    assert name[k..] == suffix;
    forall j | k < j < |name| ensures name[j] != '.' {
      assert name[j] == suffix[j - k];
    }
    LastDotOfSuffix(name, k);
  }

  /** A '.' followed by no other '.' is the last one. */
  lemma {:induction false} LastDotOfSuffix(s: string, k: nat)
    requires k < |s| && s[k] == '.' && forall j :: k < j < |s| ==> s[j] != '.'
    ensures LastDot(s) == Some(k)
    decreases |s|
  {
    if k < |s| - 1 {
      var front := s[..|s| - 1];
      LastDotOfSuffix(front, k);
    }
  }

  // ---------------------------------------------------------------------
  // Integer work splitting.

  /** C's `/`, which truncates toward zero. */
  function TruncDiv(a: int, b: int): int
    requires b > 0
  {
    if a >= 0 then a / b else -((-a) / b)
  }

  /** An MIS budget of `n` samples: half, truncated, for the BSDF, the rest
      for the light. Both halves add up to `n`; the light gets the odd
      sample of a positive budget, and of a negative one the BSDF does. */
  function MISSplit(n: int): (r: (int, int))
    ensures r.0 + r.1 == n
    ensures n >= 0 ==> r.0 >= 0 && r.1 >= 0 && (r.1 - r.0 == 0 || r.1 - r.0 == 1)
    ensures n < 0 ==> r.0 <= 0 && r.1 <= 0 && (r.1 - r.0 == 0 || r.1 - r.0 == -1)
  {
    var bsdf := TruncDiv(n, 2);
    (bsdf, n - bsdf)
  }

  /** Pixel `i` of a `width`-wide image, in row-major order. */
  function PixelOf(i: nat, width: nat): (xy: (nat, nat))
    requires width > 0
    ensures xy.0 < width && xy.0 + xy.1 * width == i
  {
    (i % width, i / width)
  }

  /** Every pixel of a `width` by `height` image is reached from exactly one
      index below `width * height`. */
  lemma PixelOfInverse(x: nat, y: nat, width: nat, height: nat)
    requires x < width && y < height
    ensures x + y * width < width * height
    ensures PixelOf(x + y * width, width) == (x, y)
  {
    assert x + y * width < width + y * width == (y + 1) * width;
    assert (y + 1) * width <= height * width by {
      MulLeq(y + 1, height, width);
    }
    DivUnique(x + y * width, width, y, x);
  }

  lemma MulLeq(a: nat, b: nat, c: nat)
    requires a <= b
    ensures a * c <= b * c
  {
  }

  /** Euclidean division has one quotient and remainder. */
  lemma DivUnique(a: nat, b: nat, q: nat, r: nat)
    requires 0 <= r < b && a == q * b + r
    ensures a / b == q && a % b == r
  {
    var q', r' := a / b, a % b;
    assert a == q' * b + r';
    assert (q' - q) * b == r - r';
    MulSign(q' - q, b);
  }

  lemma MulSign(d: int, b: nat)
    ensures d >= 1 ==> d * b >= b
    ensures d <= -1 ==> d * b <= -(b as int)
  {
    if d >= 1 {
      MulLeq(1, d, b);
    } else if d <= -1 {
      MulLeq(1, -d, b);
      assert (-d) * b == -(d * b);
    }
  }
}
