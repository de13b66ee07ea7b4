/** The derivation paths of accounts/hd.go: parser, printer and their round trip. */
module DerivationPaths {
  import opened Values

  const HARDENED := 0x8000_0000
  const MAX_UINT32 := 0xFFFF_FFFF

  type Uint32 = n: nat | n <= MAX_UINT32
  type Path = seq<Uint32>

  const DEFAULT_ROOT: Path := [HARDENED + 44, HARDENED + 60, HARDENED, 0]

  datatype Error = Ambiguous | Empty | Invalid(component: string) | OutOfRange
  datatype Result<+T> = Ok(value: T) | Err(error: Error)

  /** The characters that the Go library counts as white space. */
  predicate IsSpace(c: char) {
    var n := c as int;
    9 <= n <= 13 || n in {0x20, 0x85, 0xA0, 0x1680, 0x2028, 0x2029, 0x202F, 0x205F, 0x3000} || 0x2000 <= n <= 0x200A
  }

  function TrimLeft(s: string): string {
    if s != "" && IsSpace(s[0]) then TrimLeft(s[1..]) else s
  }

  function TrimRight(s: string): string {
    if s != "" && IsSpace(s[|s| - 1]) then TrimRight(s[..|s| - 1]) else s
  }

  function Trim(s: string): string {
    TrimRight(TrimLeft(s))
  }

  /** The last piece grows, or a slash starts a new one. */
  function AddChar(r: seq<string>, c: char): (t: seq<string>)
    requires |r| > 0
    ensures |t| > 0
  {
    if c == '/' then r + [""] else r[|r| - 1 := r[|r| - 1] + [c]]
  }

  /** The pieces of `s` between slashes; there is always at least one. */
  function Split(s: string): (r: seq<string>)
    ensures |r| > 0
  {
    if s == "" then [""] else AddChar(Split(s[..|s| - 1]), s[|s| - 1])
  }

  /** The value of a digit, or 36 if the character is none. */
  function DigitValue(c: char): nat {
    if '0' <= c <= '9' then (c as int) - ('0' as int)
    else if 'a' <= c <= 'z' then (c as int) - ('a' as int) + 10
    else if 'A' <= c <= 'Z' then (c as int) - ('A' as int) + 10
    else 36
  }

  /** The number written by `s` in a base; nothing if some character is no digit of it. */
  function Scan(s: string, base: nat): Option<nat> {
    if s == "" then Some(0)
    else
      var r, d := Scan(s[..|s| - 1], base), DigitValue(s[|s| - 1]);
      if r.Some? && d < base then Some(r.value * base + d) else None
  }

  /** An unsigned number whose prefix selects the base: 0x, 0b, 0 for octal, and decimal otherwise. */
  function ScanPrefixed(s: string): Option<nat> {
    if s == "" then None
    else if s[0] != '0' then Scan(s, 10)
    else if |s| == 1 then Some(0)
    else if s[1] == 'x' || s[1] == 'X' then (if |s| == 2 then None else Scan(s[2..], 16))
    else if s[1] == 'b' || s[1] == 'B' then (if |s| == 2 then None else Scan(s[2..], 2))
    else Scan(s[1..], 8)
  }

  /** `big.Int.SetString` with base 0. */
  function SetString(s: string): Option<int> {
    if s != "" && (s[0] == '+' || s[0] == '-') then
      var r := ScanPrefixed(s[1..]);
      var n: int := if r.Some? then r.value else 0;
      if r.Some? then Some(if s[0] == '-' then -n else n) else None
    else
      var r := ScanPrefixed(s);
      if r.Some? then Some(r.value) else None
  }

  /** One component: its number, raised by the hardened bit if it ends in an apostrophe. */
  function ParseComponent(s: string): Result<Uint32> {
    ParseTrimmed(Trim(s))
  }

  function ParseTrimmed(t: string): Result<Uint32> {
    var hardened := t != "" && t[|t| - 1] == '\'';
    var value := if hardened then HARDENED else 0;
    var digits := if hardened then Trim(t[..|t| - 1]) else t;
    var n := SetString(digits);
    if n.None? then Err(Invalid(digits))
    else if n.value < 0 || n.value > MAX_UINT32 - value then Err(OutOfRange)
    else Ok(value + n.value)
  }

  /** The components appended to `prefix` in order, up to the first one that fails. */
  function ParseAll(prefix: Path, components: seq<string>): Result<Path> {
    if components == [] then Ok(prefix)
    else
      var r, last := ParseAll(prefix, components[..|components| - 1]), ParseComponent(components[|components| - 1]);
      if r.Err? then r else if last.Err? then Err(last.error) else Ok(r.value + [last.value])
  }

  /** An absolute path after an m, or a relative one under the default root. */
  function Interpret(components: seq<string>): Result<Path>
    requires |components| > 0
  {
    var first := Trim(components[0]);
    if first == "" then Err(Ambiguous)
    else if first != "m" then ParseAll(DEFAULT_ROOT, components)
    else if |components| == 1 then Err(Empty)
    else ParseAll([], components[1..])
  }

  /** What `ParseDerivationPath` computes. */
  function Parsed(s: string): Result<Path> {
    Interpret(Split(s))
  }

  function DigitChar(d: nat): char
    requires d < 10
  {
    "0123456789"[d]
  }

  function Decimal(n: nat): (s: string)
    ensures s != ""
  {
    if n < 10 then [DigitChar(n)] else Decimal(n / 10) + [DigitChar(n % 10)]
  }

  function PrintComponent(c: Uint32): (s: string)
    ensures s != ""
  {
    if c >= HARDENED then Decimal(c - HARDENED) + "'" else Decimal(c)
  }

  /** What `DerivationPath.String` computes. */
  function Printed(path: Path): string {
    if path == [] then "m" else Printed(path[..|path| - 1]) + "/" + PrintComponent(path[|path| - 1])
  }

  /** `strings.Split` at slashes. */
  method SplitSlashes(s: string) returns (r: seq<string>)
    ensures r == Split(s)
  {
    r := [""];
    for i := 0 to |s|
      invariant r == Split(s[..i])
    {
      assert s[..i + 1][..i] == s[..i];
      if s[i] == '/' {
        r := r + [""];
      } else {
        r := r[|r| - 1 := r[|r| - 1] + [s[i]]];
      }
    }
    assert s[..|s|] == s;
  }

  lemma {:induction false} FirstFailure(prefix: Path, components: seq<string>, i: nat)
    requires i <= |components| && ParseAll(prefix, components[..i]).Err?
    ensures ParseAll(prefix, components) == ParseAll(prefix, components[..i])
    decreases |components|
  {
    if i < |components| {
      var most := components[..|components| - 1];
      assert most[..i] == components[..i];
      FirstFailure(prefix, most, i);
    } else {
      assert components[..i] == components;
    }
  }

  /** The loop over the components. */
  method ParseComponents(prefix: Path, components: seq<string>) returns (r: Result<Path>)
    ensures r == ParseAll(prefix, components)
  {
    var result := prefix;
    for i := 0 to |components|
      invariant ParseAll(prefix, components[..i]) == Ok(result)
    {
      assert components[..i + 1][..i] == components[..i];
      var value := ParseComponent(components[i]);
      if value.Err? {
        FirstFailure(prefix, components, i + 1);
        return Err(value.error);
      }
      result := result + [value.value];
    }
    assert components[..|components|] == components;
    return Ok(result);
  }

  /** `ParseDerivationPath`. */
  method ParseDerivationPath(path: string) returns (r: Result<Path>)
    ensures r == Parsed(path)
  {
    var components := SplitSlashes(path);
    var prefix: Path := [];
    var first := Trim(components[0]);
    if first == "" {
      return Err(Ambiguous);
    } else if first == "m" {
      components := components[1..];
    } else {
      prefix := DEFAULT_ROOT;
    }
    if |components| == 0 {
      return Err(Empty);
    }
    r := ParseComponents(prefix, components);
  }

  /** `DerivationPath.String`. */
  method String(path: Path) returns (result: string)
    ensures result == Printed(path)
  {
    result := "m";
    for i := 0 to |path|
      invariant result == Printed(path[..i])
    {
      assert path[..i + 1][..i] == path[..i];
      var component, hardened := path[i], false;
      if component >= HARDENED {
        component := component - HARDENED;
        hardened := true;
      }
      ghost var before := result;
      result := result + "/" + Decimal(component);
      if hardened {
        result := result + "'";
      }
      assert result == before + "/" + PrintComponent(path[i]);
    }
    assert path[..|path|] == path;
  }

  lemma SplitLonger(s: string, c: char)
    ensures Split(s + [c]) == AddChar(Split(s), c)
  {
    assert (s + [c])[..|s|] == s;
  }

  lemma AddCharRight(r: seq<string>, t: seq<string>, c: char)
    requires |t| > 0
    ensures |r + t| > 0 && AddChar(r + t, c) == r + AddChar(t, c)
  {
  }

  /** Splitting at a slash splits both sides. */
  lemma {:induction false} SplitJoin(a: string, b: string)
    ensures Split(a + "/" + b) == Split(a) + Split(b)
    decreases |b|
  {
    if b == "" {
      SplitLonger(a, '/');
      assert a + "/" + b == a + ['/'];
    } else {
      var most, c := b[..|b| - 1], b[|b| - 1];
      SplitJoin(a, most);
      SplitLonger(a + "/" + most, c);
      SplitLonger(most, c);
      AddCharRight(Split(a), Split(most), c);
      assert a + "/" + b == a + "/" + most + [c] && most + [c] == b;
    }
  }

  function Join(pieces: seq<string>): string
    requires |pieces| > 0
  {
    if |pieces| == 1 then pieces[0] else Join(pieces[..|pieces| - 1]) + "/" + pieces[|pieces| - 1]
  }

  lemma {:induction false} JoinLast(most: seq<string>, last: string)
    requires |most| > 0
    ensures Join(most + [last]) == Join(most) + "/" + last
  {
    assert (most + [last])[..|most|] == most;
  }

  lemma {:induction false} JoinLonger(r: seq<string>, c: char)
    requires |r| > 0
    ensures Join(AddChar(r, c)) == Join(r) + [c]
  {
    var most, last := r[..|r| - 1], r[|r| - 1];
    assert r == most + [last];
    if c == '/' {
      assert AddChar(r, c) == r + [""];
      JoinLast(r, "");
      assert Join(r) + "/" + "" == Join(r) + [c];
    } else {
      assert AddChar(r, c) == most + [last + [c]];
      if most != [] {
        JoinLast(most, last);
        JoinLast(most, last + [c]);
        assert Join(most) + "/" + (last + [c]) == Join(most) + "/" + last + [c];
      }
    }
  }

  /** The pieces hold no slash, and joined by slashes they are the string again. */
  lemma {:induction false} SplitIsInverse(s: string)
    ensures Join(Split(s)) == s && forall piece | piece in Split(s) :: '/' !in piece
  {
    if s != "" {
      var most, c := s[..|s| - 1], s[|s| - 1];
      SplitIsInverse(most);
      JoinLonger(Split(most), c);
      assert most + [c] == s;
    }
  }

  /** A string without slashes is one piece. */
  lemma {:induction false} SplitWhole(s: string)
    requires '/' !in s
    ensures Split(s) == [s]
  {
    if s != "" {
      SplitWhole(s[..|s| - 1]);
      assert s == s[..|s| - 1] + [s[|s| - 1]];
    }
  }

  predicate IsDigit(c: char) {
    '0' <= c <= '9'
  }

  lemma DigitBack(d: nat)
    requires d < 10
    ensures IsDigit(DigitChar(d)) && DigitValue(DigitChar(d)) == d && (DigitChar(d) == '0' <==> d == 0)
  {
  }

  /** A printed number is digits without a leading zero, and reads back in base 10. */
  lemma {:induction false} DecimalScans(n: nat)
    ensures forall c | c in Decimal(n) :: IsDigit(c)
    ensures Decimal(n)[0] == '0' <==> n == 0
    ensures Scan(Decimal(n), 10) == Some(n)
    decreases n
  {
    var s := Decimal(n);
    DigitBack(n % 10);
    if n < 10 {
      assert s[..0] == "";
      assert Scan("", 10) == Some(0);
    } else {
      DecimalScans(n / 10);
      assert s[..|s| - 1] == Decimal(n / 10);
    }
  }

  lemma DecimalReads(n: nat)
    ensures SetString(Decimal(n)) == Some(n)
  {
    DecimalScans(n);
    assert Decimal(n)[0] in Decimal(n);
    assert n == 0 ==> |Decimal(n)| == 1;
  }

  lemma NothingToTrim(s: string)
    requires s != "" && !IsSpace(s[0]) && !IsSpace(s[|s| - 1])
    ensures Trim(s) == s
  {
  }

  lemma DecimalTrims(n: nat)
    ensures var d := Decimal(n); Trim(d) == d && Trim(d + "'") == d + "'" && d[|d| - 1] != '\'' && '/' !in d
  {
    var d := Decimal(n);
    DecimalScans(n);
    assert d[0] in d && d[|d| - 1] in d;
    NothingToTrim(d);
    NothingToTrim(d + "'");
  }

  /** A printed component has no slash and reads back. */
  lemma ComponentReads(c: Uint32)
    ensures ParseComponent(PrintComponent(c)) == Ok(c) && '/' !in PrintComponent(c)
  {
    var n := if c >= HARDENED then c - HARDENED else c;
    DecimalReads(n);
    DecimalTrims(n);
    assert (Decimal(n) + "'")[..|Decimal(n)|] == Decimal(n);
  }

  function Pieces(path: Path): (r: seq<string>)
    ensures |r| == |path|
  {
    if path == [] then [] else Pieces(path[..|path| - 1]) + [PrintComponent(path[|path| - 1])]
  }

  /** The pieces of a printed path are the m and the printed components. */
  lemma {:induction false} PrintedSplits(path: Path)
    ensures Split(Printed(path)) == ["m"] + Pieces(path)
  {
    if path == [] {
      SplitWhole("m");
    } else {
      var most, c := path[..|path| - 1], path[|path| - 1];
      PrintedSplits(most);
      ComponentReads(c);
      SplitWhole(PrintComponent(c));
      SplitJoin(Printed(most), PrintComponent(c));
      assert ["m"] + (Pieces(most) + [PrintComponent(c)]) == ["m"] + Pieces(most) + [PrintComponent(c)];
    }
  }

  /** A component that is read, after others that are. */
  lemma {:induction false} ParseMore(path: Path, components: seq<string>, last: string, c: Uint32)
    requires ParseAll([], components) == Ok(path) && ParseComponent(last) == Ok(c)
    ensures ParseAll([], components + [last]) == Ok(path + [c])
  {
    assert (components + [last])[..|components|] == components;
  }

  lemma PieceReads(path: Path, c: Uint32)
    requires ParseAll([], Pieces(path)) == Ok(path)
    ensures ParseAll([], Pieces(path) + [PrintComponent(c)]) == Ok(path + [c])
  {
    ComponentReads(c);
    ParseMore(path, Pieces(path), PrintComponent(c), c);
  }

  lemma PiecesLonger(path: Path, c: Uint32)
    ensures Pieces(path + [c]) == Pieces(path) + [PrintComponent(c)]
  {
    assert (path + [c])[..|path|] == path;
  }

  /** Printed components read back one by one. */
  lemma {:induction false} PiecesRead(path: Path)
    ensures ParseAll([], Pieces(path)) == Ok(path)
  {
    if path != [] {
      var most, c := path[..|path| - 1], path[|path| - 1];
      assert path == most + [c];
      PiecesRead(most);
      PieceReads(most, c);
      PiecesLonger(most, c);
    }
  }

  lemma Absolute(components: seq<string>)
    ensures Interpret(["m"] + components) == if components == [] then Err(Empty) else ParseAll([], components)
  {
    NothingToTrim("m");
    assert (["m"] + components)[1..] == components;
  }

  /** Parsing a printed path gives it back, except that the empty path prints as a bare m, which is refused. */
  lemma RoundTrip(path: Path)
    ensures Parsed(Printed(path)) == if path == [] then Err(Empty) else Ok(path)
  {
    PrintedSplits(path);
    PiecesRead(path);
    Absolute(Pieces(path));
  }

  lemma {:induction false} ParsedSize(prefix: Path, components: seq<string>)
    requires ParseAll(prefix, components).Ok?
    ensures |ParseAll(prefix, components).value| == |prefix| + |components|
  {
    if components != [] {
      ParsedSize(prefix, components[..|components| - 1]);
    }
  }

  /** Whatever was parsed survives printing and parsing again. */
  lemma ParsedSurvives(s: string)
    requires Parsed(s).Ok?
    ensures Parsed(Printed(Parsed(s).value)) == Parsed(s)
  {
    var components := Split(s);
    if Trim(components[0]) == "m" {
      ParsedSize([], components[1..]);
    } else {
      ParsedSize(DEFAULT_ROOT, components);
    }
    RoundTrip(Parsed(s).value);
  }

  /** Components parse in two parts as they do in one. */
  lemma {:induction false} ParseInParts(prefix: Path, a: seq<string>, b: seq<string>)
    ensures var first := ParseAll(prefix, a);
            ParseAll(prefix, a + b) == if first.Err? then first else ParseAll(first.value, b)
    decreases |b|
  {
    if b == [] {
      assert a + b == a;
    } else {
      ParseInParts(prefix, a, b[..|b| - 1]);
      assert (a + b)[..|a + b| - 1] == a + b[..|b| - 1];
    }
  }

  lemma AppendedSplits(root: Path, s: string)
    ensures Split(Printed(root) + "/" + s) == ["m"] + (Pieces(root) + Split(s))
  {
    PrintedSplits(root);
    SplitJoin(Printed(root), s);
  }

  lemma AppendedReads(root: Path, rest: seq<string>)
    ensures ParseAll([], Pieces(root) + rest) == ParseAll(root, rest)
  {
    PiecesRead(root);
    ParseInParts([], Pieces(root), rest);
  }

  /** Components after a printed path are appended to it. */
  lemma Appended(root: Path, s: string)
    ensures Parsed(Printed(root) + "/" + s) == ParseAll(root, Split(s))
  {
    AppendedSplits(root, s);
    AppendedReads(root, Split(s));
    Absolute(Pieces(root) + Split(s));
  }

  /** A relative path means the absolute path under the default root. */
  lemma RelativeIsUnderRoot(s: string)
    requires Trim(Split(s)[0]) != "" && Trim(Split(s)[0]) != "m"
    ensures Parsed(s) == Parsed(Printed(DEFAULT_ROOT) + "/" + s)
  {
    Appended(DEFAULT_ROOT, s);
  }

  // White space and signs.

  predicate AllSpace(s: string) {
    forall c | c in s :: IsSpace(c)
  }

  lemma {:induction false} LeftIgnored(a: string, s: string)
    requires AllSpace(a)
    ensures TrimLeft(a + s) == TrimLeft(s)
  {
    if a == "" {
      assert a + s == s;
    } else {
      assert a[0] in a;
      assert (a + s)[1..] == a[1..] + s;
      LeftIgnored(a[1..], s);
    }
  }

  lemma {:induction false} RightIgnored(s: string, b: string)
    requires AllSpace(b)
    ensures TrimRight(s + b) == TrimRight(s)
  {
    if b == "" {
      assert s + b == s;
    } else {
      assert b[|b| - 1] in b;
      assert (s + b)[..|s + b| - 1] == s + b[..|b| - 1];
      RightIgnored(s, b[..|b| - 1]);
    }
  }

  lemma {:induction false} LeftThenRight(s: string, b: string)
    requires AllSpace(b)
    ensures TrimRight(TrimLeft(s + b)) == TrimRight(TrimLeft(s))
  {
    if s == "" {
      assert s + b == b + "";
      LeftIgnored(b, "");
    } else if IsSpace(s[0]) {
      assert (s + b)[1..] == s[1..] + b;
      LeftThenRight(s[1..], b);
    } else {
      RightIgnored(s, b);
    }
  }

  /** White space around a component does not count. */
  lemma SpacesIgnored(a: string, s: string, b: string)
    requires AllSpace(a) && AllSpace(b)
    ensures ParseComponent(a + s + b) == ParseComponent(s)
  {
    assert a + s + b == a + (s + b);
    LeftIgnored(a, s + b);
    LeftThenRight(s, b);
  }

  lemma UntrimmedReads(t: string, n: int)
    requires t != "" && Trim(t) == t && t[|t| - 1] != '\'' && SetString(t) == Some(n)
    ensures ParseComponent(t) == if 0 <= n <= MAX_UINT32 then Ok(n) else Err(OutOfRange)
  {
  }

  /** A sign is read, and a number below zero is out of range. */
  lemma SignedReads(sign: char, n: nat)
    requires sign == '+' || sign == '-'
    ensures var value: int := if sign == '-' then 0 - n else n;
            ParseComponent([sign] + Decimal(n)) == if 0 <= value <= MAX_UINT32 then Ok(value) else Err(OutOfRange)
  {
    var d := Decimal(n);
    DecimalReads(n);
    DecimalTrims(n);
    DecimalScans(n);
    assert d[0] in d && d[|d| - 1] in d;
    SignReads(sign, d, n);
    UntrimmedReads([sign] + d, if sign == '-' then 0 - n else n);
  }

  lemma SignReads(sign: char, d: string, n: nat)
    requires (sign == '+' || sign == '-') && d != "" && d[0] != '+' && d[0] != '-' && SetString(d) == Some(n)
    requires !IsSpace(d[|d| - 1]) && d[|d| - 1] != '\''
    ensures Trim([sign] + d) == [sign] + d && ([sign] + d)[|d|] != '\''
    ensures SetString([sign] + d) == Some(if sign == '-' then 0 - n else n)
  {
    assert ([sign] + d)[1..] == d;
    NothingToTrim([sign] + d);
  }

  // The other bases.

  function Power(base: nat, k: nat): nat {
    if k == 0 then 1 else base * Power(base, k - 1)
  }

  /** What digits stand for: each counts for a power of the base. */
  function Positional(s: string, base: nat): nat {
    if s == "" then 0 else DigitValue(s[0]) * Power(base, |s| - 1) + Positional(s[1..], base)
  }

  lemma HexDigits(d: nat)
    requires d < 16
    ensures DigitValue("0123456789abcdef"[d]) == d && DigitValue("0123456789ABCDEF"[d]) == d
  {
  }

  predicate IsNumeral(s: string, base: nat) {
    s != "" && forall c | c in s :: DigitValue(c) < base
  }

  lemma Horner(d: nat, power: nat, rest: nat, base: nat, last: nat)
    ensures (d * power + rest) * base + last == d * (base * power) + (rest * base + last)
  {
    assert (d * power + rest) * base == d * power * base + rest * base;
    assert d * power * base == d * (base * power);
  }

  lemma {:induction false} PositionalMore(s: string, c: char, base: nat)
    ensures Positional(s + [c], base) == Positional(s, base) * base + DigitValue(c)
    decreases |s|
  {
    if s == "" {
      assert ("" + [c])[1..] == "" && Power(base, 0) == 1;
    } else {
      PositionalMore(s[1..], c, base);
      assert (s + [c])[1..] == s[1..] + [c];
      Horner(DigitValue(s[0]), Power(base, |s| - 1), Positional(s[1..], base), base, DigitValue(c));
    }
  }

  lemma {:induction false} NumeralScans(s: string, base: nat)
    requires IsNumeral(s, base) || s == ""
    ensures Scan(s, base) == Some(Positional(s, base))
  {
    if s != "" {
      var most, c := s[..|s| - 1], s[|s| - 1];
      NumeralScans(most, base);
      PositionalMore(most, c, base);
      assert s == most + [c] && c in s;
    }
  }

  /** The prefixes of the three other bases. */
  predicate Prefix(prefix: string, base: nat) {
    (prefix in {"0x", "0X"} && base == 16) || (prefix in {"0b", "0B"} && base == 2) || (prefix == "0" && base == 8)
  }

  lemma DigitIsPlain(c: char, base: nat)
    requires DigitValue(c) < base <= 16
    ensures !IsSpace(c) && c != '\'' && c != '+' && c != '-' && (base <= 10 ==> IsDigit(c))
  {
  }

  lemma PrefixScans(prefix: string, s: string, base: nat)
    requires Prefix(prefix, base) && IsNumeral(s, base)
    ensures (prefix + s)[0] == '0' && ScanPrefixed(prefix + s) == Scan(s, base)
  {
    assert (prefix + s)[|prefix|..] == s;
    if |prefix| == 1 {
      DigitIsPlain(s[0], base);
      assert (prefix + s)[1] == s[0];
    } else {
      assert (prefix + s)[1] == prefix[1];
    }
  }

  lemma PrefixedReads(prefix: string, s: string, base: nat)
    requires Prefix(prefix, base) && IsNumeral(s, base)
    ensures var t := prefix + s;
            && t[0] == '0' && !IsSpace(t[|t| - 1]) && t[|t| - 1] != '\'' && SetString(t) == Some(Positional(s, base))
  {
    NumeralScans(s, base);
    PrefixScans(prefix, s, base);
    DigitIsPlain(s[|s| - 1], base);
    assert (prefix + s)[|prefix + s| - 1] == s[|s| - 1];
  }

  /** Without an apostrophe a component is read as this number, with one as the hardened number. */
  predicate ReadsAs(t: string, n: nat) {
    && ParseComponent(t) == (if n <= MAX_UINT32 then Ok(n) else Err(OutOfRange))
    && ParseComponent(t + "'") == if n < HARDENED then Ok(HARDENED + n) else Err(OutOfRange)
  }

  lemma TrimmedReads(t: string, n: nat)
    requires t != "" && t[0] == '0' && !IsSpace(t[|t| - 1]) && t[|t| - 1] != '\'' && SetString(t) == Some(n)
    ensures ReadsAs(t, n)
  {
    NothingToTrim(t);
    NothingToTrim(t + "'");
    assert (t + "'")[..|t|] == t;
  }

  /**
   Digits after the prefix of their base, in either case and with any zeros in front, are read as what
   they stand for, plain or hardened, as far as the range goes.
   */
  lemma AnyBaseReads(prefix: string, s: string, base: nat)
    requires Prefix(prefix, base) && IsNumeral(s, base)
    ensures ReadsAs(prefix + s, Positional(s, base))
  {
    PrefixedReads(prefix, s, base);
    TrimmedReads(prefix + s, Positional(s, base));
  }
}
