// Files of numbers: how parseNumbers (common.go) reads the decimal numbers out of a text, and how Close prints them.
// A text is a sequence of characters, that is, the data after UTF-8 decoding.
module NumberText {
  import opened Basics
  import opened Words

  // ---------- splitting into fields (Go's strings.Fields) ----------

  /** Unicode white space, as unicode.IsSpace has it. */
  predicate IsSpace(c: char)
  {
    || '\t' <= c <= '\r'
    || c in {' ', '\U{85}', '\U{A0}', '\U{1680}', '\U{2028}', '\U{2029}', '\U{202F}', '\U{205F}', '\U{3000}'}
    || '\U{2000}' <= c <= '\U{200A}'
  }

  function Flush(token: string): seq<string>
  {
    if token == "" then [] else [token]
  }

  /** The fields of a text whose current, unfinished field is token. */
  function Split(s: string, token: string): seq<string>
  {
    if s == "" then Flush(token)
    else if IsSpace(s[0]) then Flush(token) + Split(s[1..], "")
    else Split(s[1..], token + [s[0]])
  }

  function Fields(s: string): seq<string>
  {
    Split(s, "")
  }

  // ---------- decimal numerals ----------

  predicate IsDigit(c: char)
  {
    '0' <= c <= '9'
  }

  ghost predicate AllDigits(f: string)
  {
    forall i :: 0 <= i < |f| ==> IsDigit(f[i])
  }

  function Value(f: string): (v: nat)
    requires forall i :: 0 <= i < |f| ==> IsDigit(f[i])
  {
    if f == "" then 0 else
      assert IsDigit(f[|f| - 1]);
      Value(f[..|f| - 1]) * 10 + (f[|f| - 1] as int - '0' as int)
  }

  /** strconv.ParseUint(f, 10, 64): no sign, no underscores, leading zeros allowed, an error when the value needs a 65th bit. */
  function ParseUint(f: string): Option<uint64>
  {
    if f == "" || exists i :: 0 <= i < |f| && !IsDigit(f[i]) then None
    else if Value(f) >= WORD then None
    else Some(Value(f) as uint64)
  }

  /** The decimal numeral of n, without leading zeros: the %d of fmt.Fprintf. */
  function Decimal(n: nat): (f: string)
    ensures f != ""
  {
    if n < 10 then [('0' as int + n) as char] else Decimal(n / 10) + [('0' as int + n % 10) as char]
  }

  lemma {:induction false} DecimalIsNumeral(n: nat)
    ensures AllDigits(Decimal(n)) && Value(Decimal(n)) == n
  {
    if n >= 10 {
      DecimalIsNumeral(n / 10);
      assert Decimal(n)[..|Decimal(n)| - 1] == Decimal(n / 10);
    } else {
      assert Value("") == 0;
      assert Decimal(n)[..|Decimal(n)| - 1] == "";
    }
  }

  /** Reading back a printed 64-bit number gives that number. */
  lemma ParsePrintedNumber(n: uint64)
    ensures ParseUint(Decimal(n as nat)) == Some(n)
  {
    DecimalIsNumeral(n as nat);
  }

  /** No leading zeros, but for the numeral of zero itself. */
  lemma {:induction false} DecimalIsCanonical(n: nat)
    ensures Decimal(n)[0] == '0' <==> n == 0
    ensures |Decimal(n)| == 1 <==> n < 10
  {
    if n >= 10 {
      DecimalIsCanonical(n / 10);
    }
  }

  function Zeros(k: nat): (z: string)
    ensures |z| == k && forall i :: 0 <= i < k ==> z[i] == '0'
  {
    if k == 0 then "" else Zeros(k - 1) + "0"
  }

  lemma {:induction false} ValueWithZeros(k: nat, n: nat)
    ensures AllDigits(Zeros(k) + Decimal(n)) && Value(Zeros(k) + Decimal(n)) == n
    decreases n
  {
    DecimalIsNumeral(n);
    var f := Zeros(k) + Decimal(n);
    if n >= 10 {
      ValueWithZeros(k, n / 10);
      assert f[..|f| - 1] == Zeros(k) + Decimal(n / 10);
    } else {
      assert f[..|f| - 1] == Zeros(k);
      ValueOfZeros(k);
    }
  }

  lemma {:induction false} ValueOfZeros(k: nat)
    ensures Value(Zeros(k)) == 0
  {
    if k > 0 {
      ValueOfZeros(k - 1);
      assert Zeros(k)[..k - 1] == Zeros(k - 1);
    }
  }

  /** Every digit string is a canonical numeral with zeros before it. */
  lemma {:induction false} DigitsAreNumeral(f: string) returns (k: nat)
    requires f != "" && AllDigits(f)
    ensures f == Zeros(k) + Decimal(Value(f))
    decreases |f|
  {
    var n := |f| - 1;
    var digit := f[n] as int - '0' as int;
    assert IsDigit(f[n]);
    assert Value(f) == Value(f[..n]) * 10 + digit;
    if n == 0 {
      assert f[..0] == "" && f == [f[0]];
      k := 0;
    } else {
      k := DigitsAreNumeral(f[..n]);
      assert f == f[..n] + [f[n]];
      if Value(f[..n]) == 0 {
        assert f[..n] == Zeros(k) + "0";
        k := k + 1;
      }
    }
  }

  /** What strconv.ParseUint accepts as n: the printed form of n with any zeros before it, and nothing else. */
  lemma ParseUintIff(f: string, n: uint64)
    ensures ParseUint(f) == Some(n) <==> exists k :: f == Zeros(k) + Decimal(n as nat)
  {
    if ParseUint(f) == Some(n) {
      var k := DigitsAreNumeral(f);
    }
    if k :| f == Zeros(k) + Decimal(n as nat) {
      ValueWithZeros(k, n as nat);
    }
  }

  // ---------- parseNumbers ----------

  function KeepNumbers(fields: seq<string>): seq<uint64>
  {
    if fields == [] then []
    else
      var last := ParseUint(fields[|fields| - 1]);
      KeepNumbers(fields[..|fields| - 1]) + if last.Some? then [last.value] else []
  }

  /** What parseNumbers returns: the fields that are numerals of 64-bit numbers, in order. */
  function Parse(data: string): seq<uint64>
  {
    KeepNumbers(Fields(data))
  }

  method ParseNumbers(data: string) returns (nums: seq<uint64>)
    ensures nums == Parse(data)
  {
    nums := [];
    var fields := Fields(data);
    for i := 0 to |fields|
      invariant nums == KeepNumbers(fields[..i])
    {
      var n := ParseUint(fields[i]);
      assert fields[..i + 1][..i] == fields[..i];
      if n.Some? {
        nums := nums + [n.value];
      }
    }
    assert fields[..|fields|] == fields;
  }

  /** The newline-terminated listing that Close puts into a log entry. */
  function Print(nums: seq<uint64>): string
  {
    if nums == [] then "" else Decimal(nums[0] as nat) + "\n" + Print(nums[1..])
  }

  // ---------- parsing distributes over a whitespace boundary ----------

  lemma {:induction false} KeepNumbersConcat(x: seq<string>, y: seq<string>)
    ensures KeepNumbers(x + y) == KeepNumbers(x) + KeepNumbers(y)
  {
    if y == [] {
      assert x + y == x;
    } else {
      var m := |y| - 1;
      KeepNumbersConcat(x, y[..m]);
      assert (x + y)[..|x + y| - 1] == x + y[..m];
    }
  }

  /** The point between a and b, with token unfinished before a, ends a field or lies outside all fields. */
  predicate Boundary(a: string, b: string, token: string)
  {
    || b == ""
    || IsSpace(b[0])
    || if a == "" then token == "" else IsSpace(a[|a| - 1])
  }

  lemma {:induction false} SplitConcat(a: string, b: string, token: string)
    requires Boundary(a, b, token)
    ensures Split(a + b, token) == Split(a, token) + Split(b, "")
  {
    if a == "" {
      assert a + b == b;
    } else {
      assert (a + b)[1..] == a[1..] + b;
      SplitConcat(a[1..], b, if IsSpace(a[0]) then "" else token + [a[0]]);
    }
  }

  /** Parsing a concatenation parses the parts, when they meet at white space (or one is empty). */
  lemma ParseConcat(a: string, b: string)
    requires Boundary(a, b, "")
    ensures Parse(a + b) == Parse(a) + Parse(b)
  {
    SplitConcat(a, b, "");
    KeepNumbersConcat(Fields(a), Fields(b));
  }

  // ---------- print, then parse ----------

  lemma {:induction false} SplitField(f: string, token: string)
    requires AllDigits(f)
    ensures Split(f, token) == Flush(token + f)
  {
    if f == "" {
      assert token + f == token;
    } else {
      SplitField(f[1..], token + [f[0]]);
      assert token + [f[0]] + f[1..] == token + f;
    }
  }

  lemma KeepOne(f: string)
    ensures KeepNumbers([f]) == if ParseUint(f).Some? then [ParseUint(f).value] else []
  {
    assert [f][..0] == [];
  }

  lemma ParseLine(n: uint64)
    ensures Parse(Decimal(n as nat) + "\n") == [n]
  {
    var f := Decimal(n as nat);
    assert Fields(f) == [f] by {
      DecimalIsNumeral(n as nat);
      SplitField(f, "");
      assert "" + f == f;
    }
    assert Fields("\n") == [] by {
      assert "\n"[1..] == "";
    }
    hide Split, Decimal;
    SplitConcat(f, "\n", "");
    ParsePrintedNumber(n);
    KeepOne(f);
  }

  lemma {:induction false} SplitSolid(f: string, token: string)
    requires forall i :: 0 <= i < |f| ==> !IsSpace(f[i])
    ensures Split(f, token) == Flush(token + f)
  {
    if f == "" {
      assert token + f == token;
    } else {
      SplitSolid(f[1..], token + [f[0]]);
      assert token + [f[0]] + f[1..] == token + f;
    }
  }

  /**
   * A text without white space gives its number, if it is one, and otherwise nothing. With ParseConcat, and white
   * space by itself giving nothing, this says what any text parses to.
   */
  lemma LoneField(f: string)
    requires forall i :: 0 <= i < |f| ==> !IsSpace(f[i])
    ensures Parse(f) == if ParseUint(f).Some? then [ParseUint(f).value] else []
  {
    SplitSolid(f, "");
    assert "" + f == f;
    KeepOne(f);
  }

  lemma {:induction false} SpaceIsNothing(s: string)
    requires forall i :: 0 <= i < |s| ==> IsSpace(s[i])
    ensures Parse(s) == []
  {
    if s != "" {
      SpaceIsNothing(s[1..]);
      assert Flush("") + Split(s[1..], "") == Split(s[1..], "");
    }
  }

  predicate IsListingText(text: string, lines: nat)
  {
    && (forall i :: 0 <= i < |text| ==> IsDigit(text[i]) || text[i] == '\n')
    && multiset(text)['\n'] == lines
    && (text != "" ==> text[|text| - 1] == '\n')
  }

  lemma OneMoreLine(f: string, rest: string, lines: nat)
    requires AllDigits(f) && IsListingText(rest, lines)
    ensures IsListingText(f + "\n" + rest, lines + 1)
  {
    var line := f + "\n";
    assert multiset(line + rest) == multiset(line) + multiset(rest);
    assert multiset(line) == multiset(f) + multiset{'\n'};
    assert '\n' !in f;
  }

  /** The listing in a log entry consists of digits and newlines, one newline for each number, the last at the end. */
  lemma {:induction false} PrintFormat(nums: seq<uint64>)
    ensures IsListingText(Print(nums), |nums|)
  {
    if nums != [] {
      PrintFormat(nums[1..]);
      DecimalIsNumeral(nums[0] as nat);
      hide IsListingText, Decimal;
      OneMoreLine(Decimal(nums[0] as nat), Print(nums[1..]), |nums| - 1);
    }
  }

  /** Without white space between them, two numerals merge into one field: the boundary condition is needed. */
  lemma NoBoundaryMerges(m: uint64, n: uint64)
    ensures |Parse(Decimal(m as nat) + Decimal(n as nat))| <= 1
  {
    var f := Decimal(m as nat) + Decimal(n as nat);
    DecimalIsNumeral(m as nat);
    DecimalIsNumeral(n as nat);
    SplitField(f, "");
    assert "" + f == f;
    KeepOne(f);
  }

  /** Parsing a printed listing returns the listing, for any numbers in any order, repeated or not. */
  lemma {:induction false} RoundTrip(nums: seq<uint64>)
    ensures Parse(Print(nums)) == nums
  {
    if nums != [] {
      var line := Decimal(nums[0] as nat) + "\n";
      RoundTrip(nums[1..]);
      assert IsSpace(line[|line| - 1]);
      ParseConcat(line, Print(nums[1..]));
      ParseLine(nums[0]);
    }
  }

  /** Printing what a text parses to is a normal form: it parses to the same numbers. */
  lemma NormalForm(data: string)
    ensures Parse(Print(Parse(data))) == Parse(data)
  {
    RoundTrip(Parse(data));
  }
}
