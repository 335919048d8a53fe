/** Hierarchical deterministic wallet paths: parsing, printing, and that they undo each other. */
module DerivationPaths {
  import opened Options

  const HARDENED := 0x8000_0000
  const MAX_UINT32 := 0xFFFF_FFFF

  type Component = n: nat | n <= MAX_UINT32

  type Path = seq<Component>

  const DEFAULT_ROOT: Path := [HARDENED + 44, HARDENED + 60, HARDENED + 0, 0]

  predicate IsSpace(c: char) {
    || '\t' <= c <= '\r' || c == ' ' || c == '\U{85}' || c == '\U{A0}' || c == '\U{1680}'
    || '\U{2000}' <= c <= '\U{200A}' || c == '\U{2028}' || c == '\U{2029}' || c == '\U{202F}' || c == '\U{205F}'
    || c == '\U{3000}'
  }

  lemma SpacesAre(c: char)
    ensures IsSpace(c) <==>
            c in ['\t', '\n', '\U{B}', '\U{C}', '\r', ' ', '\U{85}', '\U{A0}', '\U{1680}', '\U{2000}', '\U{2001}',
                  '\U{2002}', '\U{2003}', '\U{2004}', '\U{2005}', '\U{2006}', '\U{2007}', '\U{2008}', '\U{2009}',
                  '\U{200A}', '\U{2028}', '\U{2029}', '\U{202F}', '\U{205F}', '\U{3000}']
  {
  }

  function TrimLeft(s: string): string {
    if s != "" && IsSpace(s[0]) then TrimLeft(s[1..]) else s
  }

  function TrimRight(s: string): string {
    if s != "" && IsSpace(s[|s| - 1]) then TrimRight(s[..|s| - 1]) else s
  }

  function TrimSpace(s: string): string {
    TrimRight(TrimLeft(s))
  }

  /** The parts of s between slashes; always at least one. */
  function Split(s: string): (parts: seq<string>)
    ensures |parts| >= 1
  {
    if s == "" then [""]
    else
      var rest := Split(s[1..]);
      if s[0] == '/' then [""] + rest else [[s[0]] + rest[0]] + rest[1..]
  }

  /** The value of a digit; anything else is too large for every base. */
  function Digit(c: char): nat {
    if '0' <= c <= '9' then (c - '0') as nat
    else if 'a' <= c <= 'z' then (c - 'a') as nat + 10
    else if 'A' <= c <= 'Z' then (c - 'A') as nat + 10
    else 99
  }

  /** Letters of either case go on after the ten digits. */
  lemma DigitIs(d: nat)
    requires d < 16
    ensures Digit("0123456789abcdef"[d]) == Digit("0123456789ABCDEF"[d]) == d
  {
  }

  datatype Previous = Start | AfterDigit | AfterSeparator

  /** Digits of a base, with underscores only between digits; the whole text must be consumed. */
  function ScanDigits(s: string, base: nat, previous: Previous, value: nat, count: nat): Option<nat> {
    if s == "" then
      if previous == AfterSeparator || count == 0 then None else Some(value)
    else if s[0] == '_' then
      if previous == AfterDigit then ScanDigits(s[1..], base, AfterSeparator, value, count) else None
    else if Digit(s[0]) < base then
      ScanDigits(s[1..], base, AfterDigit, Shifted(value, base, s[0]), count + 1)
    else None
  }

  function Shifted(value: nat, base: nat, c: char): nat {
    value * base + Digit(c)
  }

  /** An unsigned literal; a leading 0 selects base 2, 8 or 16. */
  function ParseNat(s: string): Option<nat> {
    if |s| > 1 && s[0] == '0' then
      if s[1] in "bB" then ScanDigits(s[2..], 2, AfterDigit, 0, 0)
      else if s[1] in "oO" then ScanDigits(s[2..], 8, AfterDigit, 0, 0)
      else if s[1] in "xX" then ScanDigits(s[2..], 16, AfterDigit, 0, 0)
      else ScanDigits(s[1..], 8, AfterDigit, 0, 0)
    else ScanDigits(s, 10, Start, 0, 0)
  }

  function ParseInteger(s: string): Option<int> {
    if s != "" && s[0] in "+-" then
      match ParseNat(s[1..])
      case None => None
      case Some(n) => Some(if s[0] == '-' then 0 - n else n)
    else
      match ParseNat(s)
      case None => None
      case Some(n) => Some(n)
  }

  /** One component: an integer in its range, hardened if it ends in a quote. */
  function ParseComponent(text: string): Option<Component> {
    var component := TrimSpace(text);
    var hardened := Quoted(component);
    var body := if hardened then TrimSpace(Unquoted(component)) else component;
    var value := if hardened then HARDENED else 0;
    match ParseInteger(body)
    case None => None
    case Some(n) => if n < 0 || n > MAX_UINT32 - value then None else Some(value + n)
  }

  predicate Quoted(s: string) {
    s != "" && s[|s| - 1] == '\''
  }

  function Unquoted(s: string): string
    requires s != ""
  {
    s[..|s| - 1]
  }

  /** Each part on its own. */
  function ReadAll(parts: seq<string>): (values: seq<Option<Component>>)
    ensures |values| == |parts| && forall i | 0 <= i < |parts| :: values[i] == ParseComponent(parts[i])
  {
    seq(|parts|, i requires 0 <= i < |parts| => ParseComponent(parts[i]))
  }

  /** All values, in order, or nothing if one of them is missing. */
  function Collect(values: seq<Option<Component>>): (r: Option<Path>)
    ensures r.Some? <==> None !in values
    ensures r.Some? ==> |r.value| == |values| && forall i | 0 <= i < |values| :: values[i] == Some(r.value[i])
  {
    if values == [] then Some([])
    else
      var rest, last := Collect(values[..|values| - 1]), values[|values| - 1];
      if rest.Some? && last.Some? then Some(rest.value + [last.value]) else None
  }

  function ParseComponents(parts: seq<string>): Option<Path> {
    Collect(ReadAll(parts))
  }

  function Below(prefix: Path, path: Option<Path>): Option<Path> {
    match path
    case None => None
    case Some(p) => Some(prefix + p)
  }

  /** Absolute paths start with m; relative ones extend the default root. */
  function Parse(text: string): Option<Path> {
    ParseSplit(Split(text))
  }

  function ParseSplit(parts: seq<string>): Option<Path>
    requires |parts| >= 1
  {
    var first := TrimSpace(parts[0]);
    if first == "" || (first == "m" && |parts| == 1) then None
    else if first == "m" then Below([], ParseComponents(parts[1..]))
    else Below(DEFAULT_ROOT, ParseComponents(parts))
  }

  /** The loop body of the parser. */
  method ReadComponent(text: string) returns (r: Option<Component>)
    ensures r == ParseComponent(text)
  {
    var component := TrimSpace(text);
    var value := 0;
    if component != "" && component[|component| - 1] == '\'' {
      value := HARDENED;
      component := TrimSpace(component[..|component| - 1]);
    }
    var n := ParseInteger(component);
    if n.None? || n.value < 0 || n.value > MAX_UINT32 - value {
      return None;
    }
    return Some(value + n.value);
  }

  /** The loop of the parser: component by component, giving up at the first bad one. */
  method AppendComponents(prefix: Path, components: seq<string>) returns (r: Option<Path>)
    ensures r == Below(prefix, ParseComponents(components))
  {
    var result := prefix;
    ghost var values := ReadAll(components);
    for i := 0 to |components|
      invariant |result| == |prefix| + i && prefix <= result
      invariant forall j | 0 <= j < i :: values[j] == Some(result[|prefix| + j])
    {
      var value := ReadComponent(components[i]);
      if value.None? {
        assert values[i] == None;
        return None;
      }
      result := result + [value.value];
    }
    CollectAll(values, result[|prefix|..]);
    assert result == prefix + result[|prefix|..];
    return Some(result);
  }

  /** The parser as it runs. */
  method ParseDerivationPath(text: string) returns (r: Option<Path>)
    ensures r == Parse(text)
  {
    var result: Path := [];
    var components := Split(text);
    var first := TrimSpace(components[0]);
    if first == "" {
      return None;
    } else if first == "m" {
      components := components[1..];
    } else {
      result := DEFAULT_ROOT;
    }
    if |components| == 0 {
      return None;
    }
    r := AppendComponents(result, components);
  }

  function Decimal(n: nat): (s: string)
    ensures |s| >= 1 && forall i | 0 <= i < |s| :: '0' <= s[i] <= '9'
    ensures n > 0 ==> s[0] != '0'
  {
    var digit := "0123456789"[n % 10];
    if n < 10 then [digit] else Decimal(n / 10) + [digit]
  }

  function PrintComponent(c: Component): string {
    if c >= HARDENED then Decimal(c - HARDENED) + "'" else Decimal(c)
  }

  function Print(path: Path): string {
    if path == [] then "m" else Print(path[..|path| - 1]) + "/" + PrintComponent(path[|path| - 1])
  }

  /** The printer as it runs. */
  method ToString(path: Path) returns (result: string)
    ensures result == Print(path)
  {
    result := "m";
    for i := 0 to |path|
      invariant result == Print(path[..i])
    {
      var component, hardened := path[i], false;
      if component >= HARDENED {
        component, hardened := component - HARDENED, true;
      }
      result := result + "/" + Decimal(component);
      assert path[..i + 1][..i] == path[..i];
      if hardened {
        result := result + "'";
        assert result == Print(path[..i]) + "/" + (Decimal(component) + "'");
      }
    }
    assert path[..|path|] == path;
  }

  /** Scanning a digit. */
  lemma ScanStep(c: char, s: string, base: nat, previous: Previous, value: nat, count: nat)
    requires base <= 36 && Digit(c) < base
    ensures ScanDigits([c] + s, base, previous, value, count) ==
            ScanDigits(s, base, AfterDigit, Shifted(value, base, c), count + 1)
  {
    assert ([c] + s)[1..] == s;
  }

  /** Scanning digits one after the other, last digit first. */
  lemma {:induction false} ScanSnoc(s: string, c: char, base: nat, previous: Previous, value: nat, count: nat)
    requires base <= 36 && forall i | 0 <= i < |s| :: Digit(s[i]) < base
    requires Digit(c) < base && ScanDigits(s, base, previous, value, count).Some?
    ensures ScanDigits(s + [c], base, previous, value, count) ==
            Some(Shifted(ScanDigits(s, base, previous, value, count).value, base, c))
    decreases |s|
  {
    if s == "" {
      ScanStep(c, "", base, previous, value, count);
      assert s + [c] == [c] + "";
    } else {
      var next := Shifted(value, base, s[0]);
      ScanStep(s[0], s[1..], base, previous, value, count);
      ScanStep(s[0], s[1..] + [c], base, previous, value, count);
      assert s == [s[0]] + s[1..] && s + [c] == [s[0]] + (s[1..] + [c]);
      ScanSnoc(s[1..], c, base, AfterDigit, next, count + 1);
    }
  }

  /** Nothing but digits of a base. */
  predicate Digits(s: string, base: nat) {
    forall i | 0 <= i < |s| :: Digit(s[i]) < base
  }

  /** The number that digits denote: each place counts base times as much as the next. */
  ghost function Value(s: string, base: nat): nat {
    if s == "" then 0 else Value(s[..|s| - 1], base) * base + Digit(s[|s| - 1])
  }

  /** Digits are read as the number they denote. */
  lemma {:induction false} ScanIsValue(s: string, base: nat, previous: Previous)
    requires base <= 36 && s != "" && Digits(s, base) && previous != AfterSeparator
    ensures ScanDigits(s, base, previous, 0, 0) == Some(Value(s, base))
    decreases |s|
  {
    var front, last := s[..|s| - 1], s[|s| - 1];
    assert s == front + [last];
    if front == "" {
      ScanStep(last, "", base, previous, 0, 0);
      assert s == [last] + "" && Value(front, base) == 0;
    } else {
      ScanIsValue(front, base, previous);
      ScanSnoc(front, last, base, previous, 0, 0);
    }
  }

  lemma {:induction false} DecimalIsValue(n: nat)
    ensures Value(Decimal(n), 10) == n
  {
    var digit := "0123456789"[n % 10];
    assert Digit(digit) == n % 10;
    if n < 10 {
      assert Decimal(n)[..0] == "";
    } else {
      DecimalIsValue(n / 10);
      assert Decimal(n)[..|Decimal(n)| - 1] == Decimal(n / 10);
    }
  }

  lemma UnderscoreStep(b: string, base: nat, value: nat, count: nat)
    requires base <= 36 && b != "" && Digit(b[0]) < base
    ensures ScanDigits("_" + b, base, AfterDigit, value, count) == ScanDigits(b, base, AfterDigit, value, count)
  {
    assert ("_" + b)[1..] == b == [b[0]] + b[1..];
    ScanStep(b[0], b[1..], base, AfterSeparator, value, count);
    ScanStep(b[0], b[1..], base, AfterDigit, value, count);
  }

  /** An underscore between two digits changes nothing. */
  lemma {:induction false} UnderscoreIsIgnored(a: string, b: string, base: nat, previous: Previous, value: nat,
                                               count: nat)
    requires base <= 36 && a != "" && b != "" && Digits(a, base) && Digit(b[0]) < base
    ensures ScanDigits(a + ("_" + b), base, previous, value, count) == ScanDigits(a + b, base, previous, value, count)
    decreases |a|
  {
    var next, rest := Shifted(value, base, a[0]), a[1..];
    ScanStep(a[0], rest + b, base, previous, value, count);
    ScanStep(a[0], rest + ("_" + b), base, previous, value, count);
    assert a + b == [a[0]] + (rest + b) && a + ("_" + b) == [a[0]] + (rest + ("_" + b));
    if rest == "" {
      assert rest + ("_" + b) == "_" + b && rest + b == b;
      UnderscoreStep(b, base, next, count + 1);
    } else {
      UnderscoreIsIgnored(rest, b, base, AfterDigit, next, count + 1);
    }
  }

  /** Digits and underscores, no two underscores together and none at an end; a prefix counts as a digit. */
  predicate Literal(s: string, base: nat, previous: Previous) {
    && (forall i | 0 <= i < |s| :: Digit(s[i]) < base || s[i] == '_')
    && (forall i | 0 < i < |s| :: s[i] != '_' || s[i - 1] != '_')
    && (s == "" ==> previous != AfterSeparator)
    && (s != "" ==> s[|s| - 1] != '_' && (s[0] == '_' ==> previous == AfterDigit))
  }

  /** Exactly such texts are read, if they hold a digit. */
  lemma {:induction false} ReadIff(s: string, base: nat, previous: Previous, value: nat, count: nat)
    requires base <= 36
    ensures ScanDigits(s, base, previous, value, count).Some? <==>
            Literal(s, base, previous) && (s != "" || count > 0)
    decreases |s|
  {
    if s != "" {
      var rest := s[1..];
      assert s == [s[0]] + rest;
      if s[0] == '_' {
        LiteralStep(s, rest, base, previous, AfterSeparator);
        ReadIff(rest, base, AfterSeparator, value, count);
      } else if Digit(s[0]) < base {
        LiteralStep(s, rest, base, previous, AfterDigit);
        ScanStep(s[0], rest, base, previous, value, count);
        ReadIff(rest, base, AfterDigit, Shifted(value, base, s[0]), count + 1);
      }
    }
  }

  lemma LiteralStep(s: string, rest: string, base: nat, previous: Previous, next: Previous)
    requires s != "" && rest == s[1..] && (if s[0] == '_' then next == AfterSeparator else next == AfterDigit)
    requires s[0] == '_' || Digit(s[0]) < base
    ensures Literal(s, base, previous) <==> Literal(rest, base, next) && (s[0] == '_' ==> previous == AfterDigit)
  {
    assert forall i | 0 < i < |s| :: s[i] == rest[i - 1];
    assert forall i | 0 <= i < |rest| :: rest[i] == s[i + 1];
  }

  /** The prefixes 0b, 0o and 0x, in either case, select the bases 2, 8 and 16. */
  lemma PrefixSelectsBase(s: string, base: nat, mark: char)
    requires (base == 2 && mark in "bB") || (base == 8 && mark in "oO") || (base == 16 && mark in "xX")
    requires s != "" && Digits(s, base)
    ensures ParseInteger("0" + [mark] + s) == Some(Value(s, base))
  {
    assert ("0" + [mark] + s)[2..] == s;
    ScanIsValue(s, base, AfterDigit);
  }

  /** A mere 0 in front makes a number octal. */
  lemma OctalNumber(s: string)
    requires s != "" && Digits(s, 8)
    ensures ParseInteger("0" + s) == Some(Value(s, 8))
  {
    assert ("0" + s)[1..] == s;
    ScanIsValue(s, 8, AfterDigit);
  }

  lemma DecimalNumber(s: string)
    requires s != "" && Digits(s, 10) && (s[0] != '0' || s == "0")
    ensures ParseInteger(s) == Some(Value(s, 10))
  {
    ScanIsValue(s, 10, Start);
  }

  /** A sign in front of a number. */
  lemma SignIs(n: nat)
    ensures ParseInteger("+" + Decimal(n)) == Some(n) && ParseInteger("-" + Decimal(n)) == Some(0 - n)
  {
    ParseDecimal(n);
    assert ("+" + Decimal(n))[1..] == Decimal(n) && ("-" + Decimal(n))[1..] == Decimal(n);
  }

  lemma ParseDecimal(n: nat)
    ensures ParseInteger(Decimal(n)) == Some(n)
  {
    DecimalIsValue(n);
    DecimalNumber(Decimal(n));
  }

  lemma TrimNothing(s: string)
    requires s != "" && !IsSpace(s[0]) && !IsSpace(s[|s| - 1])
    ensures TrimSpace(s) == s
  {
  }

  lemma ComponentRoundTrip(c: Component)
    ensures ParseComponent(PrintComponent(c)) == Some(c)
    ensures '/' !in PrintComponent(c)
  {
    var n := if c >= HARDENED then c - HARDENED else c;
    ParseDecimal(n);
    TrimNothing(Decimal(n));
    TrimNothing(PrintComponent(c));
    assert c >= HARDENED ==> Unquoted(PrintComponent(c)) == Decimal(n);
  }

  /** A component is hardened if it is quoted, but also if it is a plain number from 2^31 on. */
  lemma HardenedIff(text: string)
    requires ParseComponent(text).Some?
    ensures ParseComponent(text).value >= HARDENED <==>
            Quoted(TrimSpace(text))
            || (ParseInteger(TrimSpace(text)).Some? && ParseInteger(TrimSpace(text)).value >= HARDENED)
  {
  }

  /** Which numbers are components, plain and quoted: those of 32 bits, and those of 31. A negative one is none. */
  lemma RangeIs(n: nat)
    ensures ParseComponent(Decimal(n)) == if n < 0x1_0000_0000 then Some(n) else None
    ensures ParseComponent(Decimal(n) + "'") == if n < 0x8000_0000 then Some(0x8000_0000 + n) else None
    ensures n > 0 ==> ParseComponent("-" + Decimal(n)) == None
  {
    ParseDecimal(n);
    SignIs(n);
    TrimNothing(Decimal(n));
    TrimNothing(Decimal(n) + "'");
    TrimNothing("-" + Decimal(n));
    assert Unquoted(Decimal(n) + "'") == Decimal(n);
  }

  ghost predicate Blank(s: string) {
    forall i | 0 <= i < |s| :: IsSpace(s[i])
  }

  lemma {:induction false} TrimLeftIs(before: string, s: string)
    requires Blank(before)
    ensures TrimLeft(before + s) == TrimLeft(s)
    decreases |before|
  {
    if before == "" {
      assert before + s == s;
    } else {
      assert (before + s)[1..] == before[1..] + s;
      TrimLeftIs(before[1..], s);
    }
  }

  lemma {:induction false} TrimRightIs(s: string, after: string)
    requires Blank(after)
    ensures TrimRight(s + after) == TrimRight(s)
    decreases |after|
  {
    if after == "" {
      assert s + after == s;
    } else {
      assert (s + after)[..|s + after| - 1] == s + after[..|after| - 1];
      TrimRightIs(s, after[..|after| - 1]);
    }
  }

  lemma {:induction false} TrimLeftOf(s: string, after: string)
    requires !Blank(s)
    ensures TrimLeft(s + after) == TrimLeft(s) + after
    decreases |s|
  {
    assert (s + after)[1..] == s[1..] + after;
    if IsSpace(s[0]) {
      TrimLeftOf(s[1..], after);
    }
  }

  /** Spaces around a component change nothing. */
  lemma SpacesAreIgnored(before: string, text: string, after: string)
    requires Blank(before) && Blank(after)
    ensures ParseComponent(before + (text + after)) == ParseComponent(text)
  {
    TrimSpaceIs(before, text, after);
  }

  lemma TrimSpaceIs(before: string, text: string, after: string)
    requires Blank(before) && Blank(after)
    ensures TrimSpace(before + (text + after)) == TrimSpace(text)
  {
    TrimLeftIs(before, text + after);
    if Blank(text) {
      TrimLeftIs(text, after);
      TrimLeftIs(after, "");
      TrimLeftIs(text, "");
      assert after + "" == after && text + "" == text;
    } else {
      TrimLeftOf(text, after);
      TrimRightIs(TrimLeft(text), after);
    }
  }

  /** A part without slashes put at the end becomes the last part. */
  lemma {:induction false} SplitSnoc(s: string, part: string)
    requires '/' !in part
    ensures Split(s + "/" + part) == Split(s) + [part]
    decreases |s|
  {
    if s == "" {
      assert (s + "/" + part)[1..] == part;
      SplitWhole(part);
    } else {
      assert (s + "/" + part)[1..] == s[1..] + "/" + part;
      SplitSnoc(s[1..], part);
    }
  }

  lemma {:induction false} SplitWhole(part: string)
    requires '/' !in part
    ensures Split(part) == [part]
    decreases |part|
  {
    if part != "" {
      SplitWhole(part[1..]);
      assert part == [part[0]] + part[1..];
    }
  }

  /** The parts a printed path consists of, after the leading m. */
  function Parts(path: Path): (parts: seq<string>)
    ensures |parts| == |path| && forall i | 0 <= i < |path| :: parts[i] == PrintComponent(path[i])
  {
    if path == [] then [] else Parts(path[..|path| - 1]) + [PrintComponent(path[|path| - 1])]
  }

  lemma {:induction false} SplitPrinted(path: Path)
    ensures Split(Print(path)) == ["m"] + Parts(path)
    decreases |path|
  {
    if path == [] {
      SplitWhole("m");
    } else {
      var shorter, last := path[..|path| - 1], PrintComponent(path[|path| - 1]);
      SplitPrinted(shorter);
      ComponentRoundTrip(path[|path| - 1]);
      SplitSnoc(Print(shorter), last);
    }
  }

  lemma ParseParts(path: Path)
    ensures ParseComponents(Parts(path)) == Some(path)
  {
    var values := ReadAll(Parts(path));
    forall i | 0 <= i < |path| ensures values[i] == Some(path[i]) {
      ComponentRoundTrip(path[i]);
    }
    CollectAll(values, path);
  }

  lemma CollectAll(values: seq<Option<Component>>, path: Path)
    requires |values| == |path| && forall i | 0 <= i < |path| :: values[i] == Some(path[i])
    ensures Collect(values) == Some(path)
  {
    assert None !in values;
    var p := Collect(values).value;
    forall i | 0 <= i < |path| ensures p[i] == path[i] {
      assert values[i] == Some(p[i]);
    }
    assert p == path;
  }

  /** Printing and parsing gives every path back, except the empty one, which is refused. */
  lemma PrintThenParse(path: Path)
    ensures Parse(Print(path)) == if path == [] then None else Some(path)
  {
    SplitPrinted(path);
    ParseParts(path);
    TrimNothing("m");
    AbsoluteParts("m", Parts(path));
    assert path == [] <==> Parts(path) == [];
  }

  lemma AbsoluteParts(first: string, parts: seq<string>)
    requires TrimSpace(first) == "m"
    ensures ParseSplit([first] + parts) == if parts == [] then None else ParseComponents(parts)
  {
    assert ([first] + parts)[1..] == parts;
    if ParseComponents(parts).Some? {
      assert [] + ParseComponents(parts).value == ParseComponents(parts).value;
    }
  }

  lemma ParsedIsNonEmpty(text: string)
    ensures Parse(text).Some? ==> Parse(text).value != []
  {
  }

  /** The printed form of an accepted text is accepted again and means the same path. */
  lemma ParsePrintParse(text: string)
    requires Parse(text).Some?
    ensures Parse(Print(Parse(text).value)) == Parse(text)
  {
    ParsedIsNonEmpty(text);
    PrintThenParse(Parse(text).value);
  }

  /** Different paths print differently. */
  lemma PrintIsInjective(a: Path, b: Path)
    requires Print(a) == Print(b)
    ensures a == b
  {
    PrintThenParse(a);
    PrintThenParse(b);
  }

  /** A relative path is the absolute one below the default root. */
  lemma RelativeIsBelowRoot(text: string)
    requires TrimSpace(Split(text)[0]) != "" && TrimSpace(Split(text)[0]) != "m"
    ensures Parse(text) == Below(DEFAULT_ROOT, Parse("m/" + text))
  {
    SplitAbsolute(text);
    TrimNothing("m");
    AbsoluteParts("m", Split(text));
  }

  lemma SplitAbsolute(text: string)
    ensures Split("m/" + text) == ["m"] + Split(text)
  {
    var tail := "/" + text;
    assert tail[1..] == text;
    assert ("m" + tail)[1..] == tail;
    assert "m/" + text == "m" + tail;
    assert Split(tail) == [""] + Split(text);
    assert ['m'] + "" == "m";
  }
}
