/** Hierarchical-deterministic wallet paths: parsing of user input and the canonical printed form. */
module DerivationPaths {
  import opened Options

  const HARDENED := 0x8000_0000
  const MAX_UINT32 := 0xffff_ffff

  type uint32 = n: nat | n < 0x1_0000_0000

  /** m/44'/60'/0'/0, to which relative paths are appended. */
  const DEFAULT_ROOT: seq<uint32> := [HARDENED + 44, HARDENED + 60, HARDENED + 0, 0]

  // --- strings ---

  /** White space as unicode.IsSpace has it. */
  predicate IsSpace(c: char) {
    var n := c as int;
    || 9 <= n <= 13 || n in {0x20, 0x85, 0xA0, 0x1680, 0x2028, 0x2029, 0x202f, 0x205f, 0x3000}
    || 0x2000 <= n <= 0x200a
  }

  /** The table of white space, character by character. */
  lemma SpaceTable(c: char)
    ensures IsSpace(c) <==>
      || c in "\t\n\U{000B}\U{000C}\r \U{0085}\U{00A0}\U{1680}"
      || c in "\U{2000}\U{2001}\U{2002}\U{2003}\U{2004}\U{2005}\U{2006}\U{2007}\U{2008}\U{2009}\U{200A}"
      || c in "\U{2028}\U{2029}\U{202F}\U{205F}\U{3000}"
  {
  }

  function TrimLeft(s: string): string {
    if s != "" && IsSpace(s[0]) then TrimLeft(s[1..]) else s
  }

  function TrimRight(s: string): string {
    if s != "" && IsSpace(s[|s| - 1]) then TrimRight(s[..|s| - 1]) else s
  }

  function TrimSpace(s: string): string {
    TrimRight(TrimLeft(s))
  }

  /** strings.Split at every slash; never empty. */
  function Split(s: string): (parts: seq<string>)
    ensures parts != []
  {
    if s == "" then [""]
    else
      var rest := Split(s[1..]);
      if s[0] == '/' then [""] + rest else [[s[0]] + rest[0]] + rest[1..]
  }

  lemma {:induction false} SplitAtSlash(a: string, b: string)
    requires '/' !in a
    ensures Split(a + "/" + b) == [a] + Split(b)
  {
    if a == "" {
      assert (a + "/" + b)[1..] == b;
    } else {
      assert (a + "/" + b)[1..] == a[1..] + "/" + b;
      SplitAtSlash(a[1..], b);
      assert [a[0]] + a[1..] == a;
    }
  }

  lemma {:induction false} SplitWithout(a: string)
    requires '/' !in a
    ensures Split(a) == [a]
  {
    if a != "" {
      SplitWithout(a[1..]);
      assert [a[0]] + a[1..] == a;
    }
  }

  // --- numbers ---

  function Digit(c: char): (d: nat) {
    if '0' <= c <= '9' then c as int - '0' as int
    else if 'a' <= c <= 'z' then c as int - 'a' as int + 10
    else if 'A' <= c <= 'Z' then c as int - 'A' as int + 10
    else 99
  }

  predicate DigitsOf(s: string, base: nat) {
    && (forall c <- s :: c == '_' || Digit(c) < base)
    && exists c <- s :: c != '_'
  }

  /** A separator stands between digits, or between a base prefix and a digit. */
  predicate SeparatedWell(s: string, prefixed: bool) {
    && (s != "" && s[0] == '_' ==> prefixed)
    && (forall i :: 0 < i < |s| && s[i] == '_' ==> s[i - 1] != '_')
    && (s != "" ==> s[|s| - 1] != '_')
  }

  function Value(s: string, base: nat): nat {
    if s == "" then 0
    else
      var rest := Value(s[..|s| - 1], base);
      if s[|s| - 1] == '_' then rest else rest * base + Digit(s[|s| - 1])
  }

  function ReadDigits(s: string, base: nat, prefixed: bool): Option<nat> {
    if DigitsOf(s, base) && SeparatedWell(s, prefixed) then Some(Value(s, base)) else None
  }

  /** An unsigned integer whose base follows from its prefix. */
  function ReadNat(s: string): Option<nat> {
    if |s| > 1 && s[0] == '0' then
      if s[1] in "bB" then ReadDigits(s[2..], 2, true)
      else if s[1] in "oO" then ReadDigits(s[2..], 8, true)
      else if s[1] in "xX" then ReadDigits(s[2..], 16, true)
      else ReadDigits(s[1..], 8, true)
    else ReadDigits(s, 10, false)
  }

  /** big.Int's SetString with base 0. */
  function ReadInt(s: string): Option<int> {
    if s != "" && s[0] in "+-" then
      var n := ReadNat(s[1..]);
      if n.None? then None else var v: int := n.value; Some(if s[0] == '-' then -v else v)
    else
      var n := ReadNat(s);
      if n.None? then None else Some(n.value)
  }

  function Decimal(n: nat): (s: string)
    ensures s != "" && (forall c <- s :: '0' <= c <= '9')
    ensures n < 10 ==> |s| == 1
    ensures n > 0 ==> s[0] != '0'
  {
    if n < 10 then [('0' as int + n) as char] else Decimal(n / 10) + [('0' as int + n % 10) as char]
  }

  lemma {:induction false} DecimalValue(n: nat)
    ensures Value(Decimal(n), 10) == n
  {
    var s := Decimal(n);
    if n < 10 {
      assert s[..|s| - 1] == "";
    } else {
      assert s[..|s| - 1] == Decimal(n / 10);
      DecimalValue(n / 10);
    }
  }

  /** Every printed decimal is read back. */
  lemma DecimalIsRead(n: nat)
    ensures ReadInt(Decimal(n)) == Some(n)
  {
    var s := Decimal(n);
    DecimalValue(n);
    assert s[0] in s;
    assert forall c <- s :: c != '_' && Digit(c) < 10;
    assert s[0] !in "+-";
    assert n == 0 ==> |s| == 1;
  }

  /** The digit of value d, in either case. */
  function DigitChar(d: nat, upper: bool): (c: char)
    requires d < 16
    ensures Digit(c) == d && c != '_'
    ensures d < 8 ==> '0' <= c <= '7'
  {
    if d < 10 then ('0' as int + d) as char
    else ((if upper then 'A' else 'a') as int + d - 10) as char
  }

  /** n written in the given base. */
  function Numeral(n: nat, base: nat, upper: bool): (s: string)
    requires 2 <= base <= 16
    ensures s != "" && forall c <- s :: c != '_' && Digit(c) < base
    ensures base <= 8 ==> forall c <- s :: '0' <= c <= '7'
  {
    if n < base then [DigitChar(n, upper)]
    else
      Smaller(n, base);
      Numeral(n / base, base, upper) + [DigitChar(n % base, upper)]
  }

  lemma Smaller(n: nat, base: nat)
    requires 2 <= base <= n
    ensures n / base < n && n / base * base + n % base == n
  {
  }

  lemma {:induction false} NumeralValue(n: nat, base: nat, upper: bool)
    requires 2 <= base <= 16
    ensures Value(Numeral(n, base, upper), base) == n
  {
    hide Digit, DigitChar;
    var s := Numeral(n, base, upper);
    if n < base {
      assert s[..|s| - 1] == "";
    } else {
      Smaller(n, base);
      assert s[..|s| - 1] == Numeral(n / base, base, upper);
      NumeralValue(n / base, base, upper);
    }
  }

  lemma NumeralDigits(n: nat, base: nat, upper: bool)
    requires 2 <= base <= 16
    ensures ReadDigits(Numeral(n, base, upper), base, true) == Some(n)
  {
    hide Numeral, Value, Digit, DigitChar;
    var s := Numeral(n, base, upper);
    NumeralValue(n, base, upper);
    assert s[0] in s && s[|s| - 1] in s && forall i :: 0 <= i < |s| ==> s[i] in s;
  }

  /** A prefix chooses the base: 0b is binary, 0o or a bare 0 octal, 0x hexadecimal, in either case. */
  lemma PrefixedIsRead(n: nat, upper: bool)
    ensures ReadInt((if upper then "0B" else "0b") + Numeral(n, 2, upper)) == Some(n)
    ensures ReadInt((if upper then "0O" else "0o") + Numeral(n, 8, upper)) == Some(n)
    ensures ReadInt((if upper then "0X" else "0x") + Numeral(n, 16, upper)) == Some(n)
    ensures ReadInt("0" + Numeral(n, 8, upper)) == Some(n)
  {
    hide Numeral, ReadDigits;
    var b, o, x := Numeral(n, 2, upper), Numeral(n, 8, upper), Numeral(n, 16, upper);
    NumeralDigits(n, 2, upper);
    NumeralDigits(n, 8, upper);
    NumeralDigits(n, 16, upper);
    assert ((if upper then "0B" else "0b") + b)[2..] == b;
    assert ((if upper then "0O" else "0o") + o)[2..] == o;
    assert ((if upper then "0X" else "0x") + x)[2..] == x;
    assert ("0" + o)[1..] == o && o[0] in o;
  }

  /** A sign in front of an unsigned number. */
  lemma SignedNumber(s: string)
    requires s == "" || s[0] !in "+-"
    ensures ReadInt("+" + s) == ReadInt(s)
    ensures ReadInt(s).None? ==> ReadInt("-" + s).None?
    ensures ReadInt(s).Some? ==> ReadInt("-" + s) == Some(-ReadInt(s).value)
  {
    hide ReadNat;
    assert ("+" + s)[1..] == s && ("-" + s)[1..] == s;
  }

  lemma {:induction false} ValueSkips(a: string, b: string, base: nat)
    ensures Value(a + "_" + b, base) == Value(a + b, base)
  {
    if b == "" {
      assert a + "_" + b == a + "_" && a + b == a && (a + "_")[..|a|] == a;
    } else {
      assert (a + "_" + b)[..|a + "_" + b| - 1] == a + "_" + b[..|b| - 1];
      assert (a + b)[..|a + b| - 1] == a + b[..|b| - 1];
      ValueSkips(a, b[..|b| - 1], base);
    }
  }

  /** An underscore between two digits changes nothing; at the end, doubled, or in front of a number
      without a prefix it is an error. */
  lemma Separators(a: string, b: string, base: nat, prefixed: bool)
    requires a != "" && b != "" && forall c <- a + b :: c != '_' && Digit(c) < base
    ensures ReadDigits(a + b, base, prefixed) == Some(Value(a + b, base))
    ensures ReadDigits(a + "_" + b, base, prefixed) == ReadDigits(a + b, base, prefixed)
    ensures ReadDigits(a + "__" + b, base, prefixed).None? && ReadDigits(a + "_", base, prefixed).None?
    ensures ReadDigits("_" + b, base, false).None? && ReadDigits("__" + b, base, prefixed).None?
  {
    hide Digit, Value;
    ValueSkips(a, b, base);
    var s, u, d := a + b, a + "_" + b, a + "__" + b;
    assert forall i :: 0 <= i < |s| ==> s[i] in s;
    assert s[0] in s && u[0] == a[0] && u[0] in u;
    forall i | 0 <= i < |u| ensures u[i] == '_' <==> i == |a| {
      assert u[i] == if i < |a| then s[i] else if i == |a| then '_' else s[i - 1];
    }
    forall c | c in u ensures c == '_' || Digit(c) < base {
      var i :| 0 <= i < |u| && u[i] == c;
      assert u[i] == if i < |a| then s[i] else if i == |a| then '_' else s[i - 1];
    }
    assert d[|a| + 1] == '_' == d[|a|];
    assert (a + "_")[|a|] == '_';
    assert ("_" + b)[0] == '_' && ("__" + b)[1] == '_' == ("__" + b)[0];
  }

  /** A digit that is not below the base is an error. */
  lemma DigitTooLarge(s: string, c: char, base: nat, prefixed: bool)
    requires c in s && c != '_' && Digit(c) >= base
    ensures ReadDigits(s, base, prefixed).None?
  {
  }

  /** A number cannot begin with an underscore. */
  lemma NoLeadingSeparator(s: string)
    ensures ReadInt("_" + s).None?
  {
    assert ("_" + s)[0] == '_' && '_' !in "+-";
  }

  // --- parsing ---

  datatype Error = Ambiguous | Empty | Invalid(component: string) | OutOfRange(value: int, hardened: bool)

  datatype Result<+T> = Ok(value: T) | Err(error: Error)

  /** One component: a number, hardened if an apostrophe follows. */
  function ParseComponent(raw: string): Result<uint32> {
    var c := TrimSpace(raw);
    var hardened := c != "" && c[|c| - 1] == '\'';
    var offset := if hardened then HARDENED else 0;
    var body := if hardened then TrimSpace(c[..|c| - 1]) else c;
    var n := ReadInt(body);
    if n.None? then Err(Invalid(body))
    else if n.value < 0 || n.value > MAX_UINT32 - offset then Err(OutOfRange(n.value, hardened))
    else Ok(offset + n.value)
  }

  /** All components in order, or the first error. */
  function ParseAll(components: seq<string>): (r: Result<seq<uint32>>)
    ensures r.Ok? ==> |r.value| == |components|
  {
    if components == [] then Ok([])
    else
      var front := ParseAll(components[..|components| - 1]);
      if front.Err? then front
      else
        var last := ParseComponent(components[|components| - 1]);
        if last.Err? then Err(last.error) else Ok(front.value + [last.value])
  }

  function ParsePath(path: string): Result<seq<uint32>> {
    var components := Split(path);
    var first := TrimSpace(components[0]);
    if first == "" then Err(Ambiguous)
    else if first == "m" then
      if |components| == 1 then Err(Empty) else ParseAll(components[1..])
    else
      var rest := ParseAll(components);
      if rest.Err? then rest else Ok(DEFAULT_ROOT + rest.value)
  }

  /** ParseDerivationPath: components are appended one by one until one fails. */
  method ParseDerivationPath(path: string) returns (r: Result<seq<uint32>>)
    ensures r == ParsePath(path)
  {
    hide Split, ParseComponent, TrimSpace;
    var result: seq<uint32> := [];
    var components := Split(path);
    var first := TrimSpace(components[0]);
    if first == "" {
      return Err(Ambiguous);
    } else if first == "m" {
      components := components[1..];
    } else {
      result := DEFAULT_ROOT;
    }
    if components == [] {
      return Err(Empty);
    }
    ghost var root := result;
    for i := 0 to |components|
      invariant ParseAll(components[..i]).Ok? && result == root + ParseAll(components[..i]).value
    {
      assert components[..i + 1][..i] == components[..i];
      var value := ParseComponent(components[i]);
      if value.Err? {
        ErrorIsFirst(components, i + 1);
        return Err(value.error);
      }
      result := result + [value.value];
    }
    assert components[..|components|] == components;
    assert root == [] ==> root + ParseAll(components).value == ParseAll(components).value;
    r := Ok(result);
  }

  /** An error found in a prefix is the error of the whole. */
  lemma {:induction false} ErrorIsFirst(components: seq<string>, n: nat)
    requires n <= |components| && ParseAll(components[..n]).Err?
    ensures ParseAll(components) == ParseAll(components[..n])
    decreases |components| - n
  {
    if n == |components| {
      assert components[..n] == components;
    } else {
      assert components[..n + 1][..n] == components[..n];
      ErrorIsFirst(components, n + 1);
    }
  }

  // --- printing ---

  function PrintComponent(c: uint32): string {
    if c >= HARDENED then Decimal(c - HARDENED) + "'" else Decimal(c)
  }

  function Render(path: seq<uint32>): string {
    if path == [] then "m" else Render(path[..|path| - 1]) + "/" + PrintComponent(path[|path| - 1])
  }

  method PathString(path: seq<uint32>) returns (result: string)
    ensures result == Render(path)
  {
    result := "m";
    for i := 0 to |path|
      invariant result == Render(path[..i])
    {
      var component := path[i];
      var hardened := false;
      if component >= HARDENED {
        component := component - HARDENED;
        hardened := true;
      }
      assert path[..i + 1][..i] == path[..i];
      assert path[..i + 1][|path[..i + 1]| - 1] == path[i];
      result := result + "/" + Decimal(component);
      if hardened {
        ghost var before := result;
        result := result + "'";
        assert result == Render(path[..i]) + "/" + (Decimal(component) + "'");
      }
    }
    assert path[..|path|] == path;
  }

  // --- what parsing and printing promise each other ---

  /** Text that starts and ends with a visible character is left alone. */
  lemma TrimKeeps(s: string)
    requires s != "" && !IsSpace(s[0]) && !IsSpace(s[|s| - 1])
    ensures TrimSpace(s) == s
  {
  }

  lemma DigitsAreKept(d: string)
    requires d != "" && forall c <- d :: '0' <= c <= '9'
    ensures TrimSpace(d) == d && TrimSpace(d + "'") == d + "'"
  {
    assert d[0] in d && d[|d| - 1] in d;
    TrimKeeps(d);
    TrimKeeps(d + "'");
  }

  /** A printed component is read back, hardened or not. */
  lemma ComponentRoundTrip(c: uint32)
    ensures ParseComponent(PrintComponent(c)) == Ok(c)
    ensures '/' !in PrintComponent(c)
    ensures PrintComponent(c) != "" && '0' <= PrintComponent(c)[0] <= '9'
    ensures TrimSpace(PrintComponent(c)) == PrintComponent(c)
  {
    hide ReadInt, TrimSpace, IsSpace;
    var n := if c >= HARDENED then c - HARDENED else c;
    var d := Decimal(n);
    DecimalIsRead(n);
    DigitsAreKept(d);
    assert d[0] in d && d[|d| - 1] in d;
    if c >= HARDENED { assert (d + "'")[..|d|] == d; }
  }

  /** Index i hardened is i + 2^31, for exactly the i below 2^31. */
  lemma HardenedIndex(i: nat)
    ensures i < 2147483648 ==> ParseComponent(Decimal(i) + "'") == Ok(i + 2147483648)
    ensures i >= 2147483648 ==> ParseComponent(Decimal(i) + "'") == Err(OutOfRange(i, true))
  {
    hide ReadInt, TrimSpace;
    var d := Decimal(i);
    DecimalIsRead(i);
    DigitsAreKept(d);
    assert (d + "'")[..|d|] == d;
  }

  /** Without an apostrophe the index is itself, for exactly the i below 2^32. */
  lemma PlainIndex(i: nat)
    ensures i < 4294967296 ==> ParseComponent(Decimal(i)) == Ok(i)
    ensures i >= 4294967296 ==> ParseComponent(Decimal(i)) == Err(OutOfRange(i, false))
  {
    hide ReadInt, TrimSpace;
    var d := Decimal(i);
    DecimalIsRead(i);
    DigitsAreKept(d);
    assert d[|d| - 1] in d;
  }

  /** A negative index is out of range, hardened or not. */
  lemma NegativeIndex(i: int)
    requires i < 0
    ensures ParseComponent("-" + Decimal(-i)) == Err(OutOfRange(i, false))
    ensures ParseComponent("-" + Decimal(-i) + "'") == Err(OutOfRange(i, true))
  {
    hide ReadInt, TrimSpace, IsSpace;
    var d := Decimal(-i);
    var s := "-" + d;
    DecimalIsRead(-i);
    assert d[0] in d && d[|d| - 1] in d;
    SignedNumber(d);
    MinusIsKept(d);
    assert (s + "'")[..|s|] == s;
  }

  lemma MinusIsKept(d: string)
    requires d != "" && forall c <- d :: '0' <= c <= '9'
    ensures TrimSpace("-" + d) == "-" + d && TrimSpace("-" + d + "'") == "-" + d + "'"
  {
    assert d[|d| - 1] in d;
    TrimKeeps("-" + d);
    TrimKeeps("-" + d + "'");
  }

  /** The root relative paths are appended to is the one Ethereum wallets use. */
  lemma DefaultRoot()
    ensures Render(DEFAULT_ROOT) == "m/44'/60'/0'/0"
  {
    hide Render, PrintComponent;
    var r := DEFAULT_ROOT;
    RootComponents();
    RenderSnoc([], r[0]);
    RenderSnoc([r[0]], r[1]);
    RenderSnoc([r[0], r[1]], r[2]);
    RenderSnoc([r[0], r[1], r[2]], r[3]);
    assert [] + [r[0]] == [r[0]] && [r[0]] + [r[1]] == [r[0], r[1]];
    assert [r[0], r[1]] + [r[2]] == [r[0], r[1], r[2]] && [r[0], r[1], r[2]] + [r[3]] == r;
  }

  lemma RenderSnoc(path: seq<uint32>, c: uint32)
    ensures Render([]) == "m" && Render(path + [c]) == Render(path) + "/" + PrintComponent(c)
  {
    assert (path + [c])[..|path|] == path;
  }

  lemma RootComponents()
    ensures PrintComponent(DEFAULT_ROOT[0]) == "44'" && PrintComponent(DEFAULT_ROOT[1]) == "60'"
    ensures PrintComponent(DEFAULT_ROOT[2]) == "0'" && PrintComponent(DEFAULT_ROOT[3]) == "0"
  {
    assert Decimal(44) == Decimal(4) + "4" && Decimal(60) == Decimal(6) + "0";
  }

  function Printed(path: seq<uint32>): seq<string> {
    seq(|path|, i requires 0 <= i < |path| => PrintComponent(path[i]))
  }

  lemma {:induction false} SplitSnoc(a: string, b: string)
    requires '/' !in b
    ensures Split(a + "/" + b) == Split(a) + [b]
  {
    if a == "" {
      assert a + "/" + b == "" + "/" + b;
      SplitAtSlash("", b);
      SplitWithout(b);
    } else {
      assert (a + "/" + b)[1..] == a[1..] + "/" + b;
      SplitSnoc(a[1..], b);
    }
  }

  lemma PrintedSnoc(path: seq<uint32>)
    requires path != []
    ensures Printed(path) == Printed(path[..|path| - 1]) + [PrintComponent(path[|path| - 1])]
  {
    hide PrintComponent;
  }

  lemma {:induction false} RenderSplits(path: seq<uint32>)
    ensures Split(Render(path)) == ["m"] + Printed(path)
  {
    if path == [] {
      SplitWithout("m");
    } else {
      hide Split, PrintComponent, ParseComponent, TrimSpace;
      var front, last := path[..|path| - 1], path[|path| - 1];
      RenderSplits(front);
      ComponentRoundTrip(last);
      SplitSnoc(Render(front), PrintComponent(last));
      PrintedSnoc(path);
      hide Printed;
      assert ["m"] + (Printed(front) + [PrintComponent(last)]) == (["m"] + Printed(front)) + [PrintComponent(last)];
    }
  }

  lemma {:induction false} PrintedParses(path: seq<uint32>)
    ensures ParseAll(Printed(path)) == Ok(path)
  {
    if path != [] {
      var front, last := path[..|path| - 1], path[|path| - 1];
      hide ParseComponent, PrintComponent, TrimSpace;
      PrintedParses(front);
      ComponentRoundTrip(last);
      PrintedSnoc(path);
      assert Printed(path)[..|path| - 1] == Printed(front);
      assert path == front + [last];
    }
  }

  /** Every non-empty path survives printing and parsing; the empty one prints as a string that is
      refused. */
  lemma RoundTrip(path: seq<uint32>)
    ensures path != [] ==> ParsePath(Render(path)) == Ok(path)
    ensures path == [] ==> ParsePath(Render(path)) == Err(Empty)
  {
    RenderSplits(path);
    PrintedParses(path);
    TrimKeeps("m");
    assert (["m"] + Printed(path))[1..] == Printed(path);
  }

  /** Whatever string is accepted, printing its path gives a form that parses to the same path, and
      printing again changes nothing. */
  lemma CanonicalForm(s: string)
    requires ParsePath(s).Ok?
    ensures ParsePath(s).value != []
    ensures ParsePath(Render(ParsePath(s).value)) == ParsePath(s)
  {
    RoundTrip(ParsePath(s).value);
  }

  lemma {:induction false} TrimLeftPads(l: string, s: string)
    requires forall c <- l :: IsSpace(c)
    ensures TrimLeft(l + s) == TrimLeft(s)
  {
    if l == "" {
      assert l + s == s;
    } else {
      assert (l + s)[1..] == l[1..] + s;
      TrimLeftPads(l[1..], s);
    }
  }

  lemma {:induction false} TrimRightPads(s: string, r: string)
    requires forall c <- r :: IsSpace(c)
    ensures TrimRight(s + r) == TrimRight(s)
  {
    if r == "" {
      assert s + r == s;
    } else {
      assert (s + r)[..|s + r| - 1] == s + r[..|r| - 1];
      TrimRightPads(s, r[..|r| - 1]);
    }
  }

  lemma {:induction false} TrimLeftStops(s: string, r: string)
    requires exists c <- s :: !IsSpace(c)
    ensures TrimLeft(s + r) == TrimLeft(s) + r
  {
    if IsSpace(s[0]) {
      assert (s + r)[1..] == s[1..] + r;
      TrimLeftStops(s[1..], r);
    }
  }

  /** White space around a component is ignored. */
  lemma WhitespaceIsIgnored(l: string, s: string, r: string)
    requires (forall c <- l :: IsSpace(c)) && (forall c <- r :: IsSpace(c))
    ensures ParseComponent(l + s + r) == ParseComponent(s)
  {
    hide TrimSpace, ReadInt, IsSpace;
    PadsAreTrimmed(l, s, r);
  }

  lemma PadsAreTrimmed(l: string, s: string, r: string)
    requires (forall c <- l :: IsSpace(c)) && (forall c <- r :: IsSpace(c))
    ensures TrimSpace(l + s + r) == TrimSpace(s)
  {
    hide IsSpace;
    assert l + s + r == l + (s + r);
    TrimLeftPads(l, s + r);
    if exists c <- s :: !IsSpace(c) {
      TrimLeftStops(s, r);
      TrimRightPads(TrimLeft(s), r);
    } else {
      TrimLeftPads(s + r, "");
      TrimLeftPads(s, "");
      assert s + r + "" == s + r && s + "" == s;
    }
  }

  lemma {:induction false} TrimLeftMeans(s: string) returns (l: string)
    ensures s == l + TrimLeft(s) && forall c <- l :: IsSpace(c)
    ensures TrimLeft(s) != "" ==> !IsSpace(TrimLeft(s)[0])
  {
    hide IsSpace;
    l := "";
    if s != "" && IsSpace(s[0]) {
      l := TrimLeftMeans(s[1..]);
      l := [s[0]] + l;
    }
  }

  lemma {:induction false} TrimRightMeans(s: string) returns (r: string)
    ensures s == TrimRight(s) + r && forall c <- r :: IsSpace(c)
    ensures TrimRight(s) != "" ==> !IsSpace(TrimRight(s)[|TrimRight(s)| - 1])
  {
    hide IsSpace;
    r := "";
    if s != "" && IsSpace(s[|s| - 1]) {
      r := TrimRightMeans(s[..|s| - 1]);
      r := r + [s[|s| - 1]];
    }
  }

  /** Trimming removes white space at both ends, all of it and nothing else. */
  lemma TrimMeans(s: string) returns (l: string, r: string)
    ensures s == l + TrimSpace(s) + r && (forall c <- l :: IsSpace(c)) && (forall c <- r :: IsSpace(c))
    ensures TrimSpace(s) != "" ==> !IsSpace(TrimSpace(s)[0]) && !IsSpace(TrimSpace(s)[|TrimSpace(s)| - 1])
  {
    hide IsSpace, TrimLeft, TrimRight;
    l := TrimLeftMeans(s);
    r := TrimRightMeans(TrimLeft(s));
    assert TrimSpace(s) != "" ==> TrimSpace(s)[0] == TrimLeft(s)[0];
  }

  /** Components are parsed in order: all are right, or the first wrong one gives the error. */
  lemma {:induction false} FirstErrorWins(components: seq<string>)
    ensures ParseAll(components).Ok? <==> forall c <- components :: ParseComponent(c).Ok?
    ensures ParseAll(components).Ok? ==>
      forall i :: 0 <= i < |components| ==> ParseComponent(components[i]) == Ok(ParseAll(components).value[i])
    ensures ParseAll(components).Err? ==>
      exists i :: 0 <= i < |components| && ParseComponent(components[i]) == Err(ParseAll(components).error) &&
        forall j :: 0 <= j < i ==> ParseComponent(components[j]).Ok?
  {
    hide ParseComponent;
    if components != [] {
      var front, last := components[..|components| - 1], components[|components| - 1];
      FirstErrorWins(front);
      assert last in components && forall c <- front :: c in components;
      assert forall c <- components :: c in front || c == last;
      if ParseAll(front).Err? {
        var i :| 0 <= i < |front| && ParseComponent(front[i]) == Err(ParseAll(front).error) &&
                 forall j :: 0 <= j < i ==> ParseComponent(front[j]).Ok?;
        assert components[i] == front[i] && forall j :: 0 <= j < i ==> components[j] == front[j];
      } else if ParseComponent(last).Err? {
        assert forall j :: 0 <= j < |front| ==> components[j] == front[j] && front[j] in front;
      }
    }
  }

  /** The text before the first slash decides how a path is read: nothing there is ambiguous, "m" makes
      it absolute, anything else is the first component of a path below the default root. */
  lemma FirstComponentDecides(first: string, rest: string)
    requires '/' !in first
    ensures TrimSpace(first) == "" ==>
      ParsePath(first) == Err(Ambiguous) && ParsePath(first + "/" + rest) == Err(Ambiguous)
    ensures TrimSpace(first) == "m" ==>
      ParsePath(first) == Err(Empty) && ParsePath(first + "/" + rest) == ParseAll(Split(rest))
    ensures TrimSpace(first) !in ["", "m"] && ParseAll([first] + Split(rest)).Ok? ==>
      ParsePath(first + "/" + rest) == Ok(DEFAULT_ROOT + ParseAll([first] + Split(rest)).value)
    ensures TrimSpace(first) !in ["", "m"] && ParseAll([first] + Split(rest)).Err? ==>
      ParsePath(first + "/" + rest) == ParseAll([first] + Split(rest))
    ensures TrimSpace(first) !in ["", "m"] && ParseComponent(first).Ok? ==>
      ParsePath(first) == Ok(DEFAULT_ROOT + [ParseComponent(first).value])
  {
    hide Split, ParseComponent, TrimSpace;
    SplitAtSlash(first, rest);
    SplitWithout(first);
    assert ([first] + Split(rest))[1..] == Split(rest);
    FirstErrorWins([first]);
    assert ParseComponent(first).Ok? ==> ParseAll([first]).value == [ParseComponent(first).value] by {
      assert [first][0] == first;
    }
    assert TrimSpace(first) !in ["", "m"] <==> TrimSpace(first) != "" && TrimSpace(first) != "m";
  }

  /** The printed form without its "m/" is a relative path below the default root. */
  lemma RelativePath(path: seq<uint32>)
    requires path != []
    ensures |Render(path)| >= 2 && Render(path)[..2] == "m/"
    ensures ParsePath(Render(path)[2..]) == Ok(DEFAULT_ROOT + path)
  {
    hide Split, PrintComponent, ParseComponent, ParseAll, TrimSpace, Render;
    RenderStart(path);
    var rel := Render(path)[2..];
    RenderSplits(path);
    assert Render(path) == "m" + "/" + rel;
    SplitAtSlash("m", rel);
    assert Split(rel) == (["m"] + Split(rel))[1..] == Printed(path);
    ComponentRoundTrip(path[0]);
    PrintedParses(path);
  }

  lemma {:induction false} RenderStart(path: seq<uint32>)
    requires path != []
    ensures |Render(path)| >= 2 && Render(path)[..2] == "m/"
  {
    if |path| == 1 {
      assert path[..0] == [];
      assert Render(path) == "m" + "/" + PrintComponent(path[0]);
    } else {
      RenderStart(path[..|path| - 1]);
    }
  }
}
