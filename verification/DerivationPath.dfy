/** Hierarchical deterministic wallet paths: parsing user input and printing the canonical form. */
module DerivationPaths {

  /** Path components are 32-bit; the upper half is the hardened range of BIP-32. */
  const HARDENED: nat := 0x8000_0000
  const MAX_UINT32: nat := 0xffff_ffff

  /** The path m/44'/60'/0'/0 that relative paths are appended to. */
  const DEFAULT_ROOT: seq<nat> := [HARDENED + 44, HARDENED + 60, HARDENED, 0]

  datatype PathError = EmptyPath | AmbiguousPath | InvalidComponent | OutOfRange

  datatype Parsed<T> = Error(error: PathError) | Ok(value: T)

  datatype Number = NotANumber | Number(value: int)

  predicate IsSpace(c: char) {
    var n := c as int;
    9 <= n <= 13 || n == 32 || n == 0x85 || n == 0xa0 || n == 0x1680 || 0x2000 <= n <= 0x200a
    || n == 0x2028 || n == 0x2029 || n == 0x202f || n == 0x205f || n == 0x3000
  }

  function TrimLeft(s: string): string {
    if s != "" && IsSpace(s[0]) then TrimLeft(s[1..]) else s
  }

  function TrimRight(s: string): string {
    if s != "" && IsSpace(s[|s| - 1]) then TrimRight(s[..|s| - 1]) else s
  }

  function TrimSpace(s: string): string {
    TrimRight(TrimLeft(s))
  }

  /** The parts between the slashes; there is always at least one. */
  function Split(s: string): (parts: seq<string>)
    ensures |parts| > 0
  {
    if s == "" then [""]
    else if s[0] == '/' then [""] + Split(s[1..])
    else
      var rest := Split(s[1..]);
      [[s[0]] + rest[0]] + rest[1..]
  }

  /** The value of a digit or letter; anything else is worth more than any base. */
  function DigitValue(c: char): nat {
    if '0' <= c <= '9' then c as nat - '0' as nat
    else if 'a' <= c <= 'z' then c as nat - 'a' as nat + 10
    else if 'A' <= c <= 'Z' then c as nat - 'A' as nat + 10
    else 99
  }

  predicate AllDigits(s: string, base: nat) {
    forall i :: 0 <= i < |s| ==> DigitValue(s[i]) < base
  }

  function DigitsValue(s: string, base: nat): nat {
    if s == "" then 0 else DigitsValue(s[..|s| - 1], base) * base + DigitValue(s[|s| - 1])
  }

  function ParseDigits(s: string, base: nat): Number {
    if s != "" && AllDigits(s, base) then Number(DigitsValue(s, base)) else NotANumber
  }

  /** An unsigned number: prefix 0x is hexadecimal, 0b binary, a leading 0 octal. */
  function ParseUnsigned(s: string): Number {
    if |s| >= 2 && s[0] == '0' then
      if s[1] == 'x' || s[1] == 'X' then ParseDigits(s[2..], 16)
      else if s[1] == 'b' || s[1] == 'B' then ParseDigits(s[2..], 2)
      else ParseDigits(s[1..], 8)
    else ParseDigits(s, 10)
  }

  function ParseNumber(s: string): Number {
    if s != "" && s[0] == '+' then ParseUnsigned(s[1..])
    else if s != "" && s[0] == '-' then
      match ParseUnsigned(s[1..])
      case NotANumber => NotANumber
      case Number(n) => Number(-n)
    else ParseUnsigned(s)
  }

  function ParseComponent(text: string): Parsed<nat> {
    var t := TrimSpace(text);
    var hardened := t != "" && t[|t| - 1] == '\'';
    var base := if hardened then HARDENED else 0;
    match ParseNumber(if hardened then TrimSpace(t[..|t| - 1]) else t)
    case NotANumber => Error(InvalidComponent)
    case Number(n) => if n < 0 || n > MAX_UINT32 - base then Error(OutOfRange) else Ok(base + n)
  }

  /** All components in order, or the first error. */
  function ParseAll(parts: seq<string>): Parsed<seq<nat>> {
    if parts == [] then Ok([])
    else
      match ParseAll(parts[..|parts| - 1])
      case Error(e) => Error(e)
      case Ok(path) =>
        match ParseComponent(parts[|parts| - 1])
        case Error(e) => Error(e)
        case Ok(c) => Ok(path + [c])
  }

  function Prepend(prefix: seq<nat>, r: Parsed<seq<nat>>): Parsed<seq<nat>> {
    match r
    case Error(e) => Error(e)
    case Ok(path) => Ok(prefix + path)
  }

  /** Full paths start with m, relative ones continue the default root. */
  function Parse(s: string): Parsed<seq<nat>> {
    var parts := Split(s);
    if TrimSpace(parts[0]) == "" then Error(AmbiguousPath)
    else if TrimSpace(parts[0]) == "m" then
      if |parts| == 1 then Error(EmptyPath) else ParseAll(parts[1..])
    else Prepend(DEFAULT_ROOT, ParseAll(parts))
  }

  function BaseDigit(d: nat, upper: bool): char
    requires d < 16
  {
    if d < 10 then ('0' as nat + d) as char else if upper then ('A' as nat + d - 10) as char else ('a' as nat + d - 10) as char
  }

  function Digits(n: nat, base: nat, upper: bool): string
    requires 2 <= base <= 16
  {
    if n < base then [BaseDigit(n, upper)] else Digits(n / base, base, upper) + [BaseDigit(n % base, upper)]
  }

  function Decimal(n: nat): string {
    Digits(n, 10, false)
  }

  function PrintComponent(c: nat): string {
    if c >= HARDENED then Decimal(c - HARDENED) + "'" else Decimal(c)
  }

  function Print(path: seq<nat>): string {
    if path == [] then "m" else Print(path[..|path| - 1]) + "/" + PrintComponent(path[|path| - 1])
  }

  /** Every component is a 32-bit number. */
  predicate InRange(path: seq<nat>) {
    forall i :: 0 <= i < |path| ==> path[i] <= MAX_UINT32
  }

  lemma DecimalDigits(n: nat)
    ensures Decimal(n) != "" && AllDigits(Decimal(n), 10) && DigitsValue(Decimal(n), 10) == n
    ensures forall i :: 0 <= i < |Decimal(n)| ==> '0' <= Decimal(n)[i] <= '9'
    ensures n > 0 ==> Decimal(n)[0] != '0'
  {
    DigitsParse(n, 10, false);
    hide Digits;
  }

  lemma NumberOfDecimal(n: nat)
    ensures ParseNumber(Decimal(n)) == Number(n)
  {
    DecimalDigits(n);
    if n == 0 {
      assert Decimal(0) == "0";
    }
  }

  /** Text that neither starts nor ends with a space is its own trimmed form. */
  lemma TrimNothing(s: string)
    requires s != "" && !IsSpace(s[0]) && !IsSpace(s[|s| - 1])
    ensures TrimSpace(s) == s
  {
  }

  lemma ComponentRoundTrip(c: nat)
    requires c <= MAX_UINT32
    ensures ParseComponent(PrintComponent(c)) == Ok(c)
  {
    var n := if c >= HARDENED then c - HARDENED else c;
    var d, s := Decimal(n), PrintComponent(c);
    DecimalDigits(n);
    NumberOfDecimal(n);
    TrimNothing(d);
    TrimNothing(s);
    if c >= HARDENED {
      assert s[..|s| - 1] == d;
    }
  }

  lemma {:induction false} SplitAppend(s: string, t: string)
    requires '/' !in t
    ensures Split(s + "/" + t) == Split(s) + [t]
  {
    if s == "" {
      SplitPlain(t);
      assert ("" + "/" + t)[1..] == t;
    } else {
      SplitAppend(s[1..], t);
      assert (s + "/" + t)[1..] == s[1..] + "/" + t;
    }
  }

  lemma {:induction false} SplitPlain(t: string)
    requires '/' !in t
    ensures Split(t) == [t]
  {
    if t != "" {
      SplitPlain(t[1..]);
      assert [t[0]] + t[1..] == t;
    }
  }

  lemma NoSlash(c: nat)
    ensures '/' !in PrintComponent(c)
  {
    DecimalDigits(if c >= HARDENED then c - HARDENED else c);
  }

  lemma {:induction false} SplitPrinted(path: seq<nat>)
    requires InRange(path)
    ensures Split(Print(path))[0] == "m" && |Split(Print(path))| == |path| + 1
    ensures ParseAll(Split(Print(path))[1..]) == Ok(path)
  {
    hide ParseComponent, PrintComponent, Split;
    if path == [] {
      SplitPlain("m");
    } else {
      var init, c := path[..|path| - 1], path[|path| - 1];
      SplitPrinted(init);
      NoSlash(c);
      ComponentRoundTrip(c);
      SplitAppend(Print(init), PrintComponent(c));
      var parts := Split(Print(path))[1..];
      assert parts == Split(Print(init))[1..] + [PrintComponent(c)];
      assert parts[..|parts| - 1] == Split(Print(init))[1..];
      assert init + [c] == path;
    }
  }

  /** Parsing a printed path gives the path back, exactly if it is not empty. */
  lemma RoundTrip(path: seq<nat>)
    requires InRange(path)
    ensures Parse(Print(path)) == (if path == [] then Error(EmptyPath) else Ok(path))
  {
    SplitPrinted(path);
    TrimNothing("m");
  }

  lemma {:induction false} ParsedAll(parts: seq<string>)
    ensures var r := ParseAll(parts); r.Ok? ==> |r.value| == |parts| && InRange(r.value)
  {
    if parts != [] {
      ParsedAll(parts[..|parts| - 1]);
    }
  }

  /** Whatever parses is a non-empty path of 32-bit components, and its printed form parses to it again. */
  lemma Reparse(s: string)
    requires Parse(s).Ok?
    ensures var path := Parse(s).value; path != [] && InRange(path) && Parse(Print(path)) == Parse(s)
  {
    var parts := Split(s);
    ParsedAll(parts);
    ParsedAll(parts[1..]);
    RoundTrip(Parse(s).value);
  }

  /** Different paths print differently. */
  lemma PrintInjective(p: seq<nat>, q: seq<nat>)
    requires InRange(p) && InRange(q) && Print(p) == Print(q)
    ensures p == q
  {
    RoundTrip(p);
    RoundTrip(q);
  }

  /** A relative path means the same as its absolute form, below the default root. */
  lemma RelativePath(s: string)
    requires TrimSpace(Split(s)[0]) != "" && TrimSpace(Split(s)[0]) != "m"
    ensures Parse(s) == Prepend(DEFAULT_ROOT, Parse("m/" + s))
  {
    var full := "m/" + s;
    assert full[1..] == "/" + s && full[1..][1..] == s;
    var rest := Split(full[1..]);
    assert rest[0] == "" && rest[1..] == Split(s);
    assert full[0] == 'm' && Split(full) == [[full[0]] + rest[0]] + rest[1..];
    assert [full[0]] + rest[0] == "m";
    TrimNothing("m");
  }

  predicate Blank(s: string) {
    forall i :: 0 <= i < |s| ==> IsSpace(s[i])
  }

  lemma {:induction false} TrimLeftBlank(b: string, s: string)
    requires Blank(b)
    ensures TrimLeft(b + s) == TrimLeft(s)
  {
    if b == "" {
      assert b + s == s;
    } else {
      TrimLeftBlank(b[1..], s);
      assert (b + s)[1..] == b[1..] + s;
    }
  }

  lemma {:induction false} TrimRightBlank(s: string, b: string)
    requires Blank(b)
    ensures TrimRight(s + b) == TrimRight(s)
  {
    if b == "" {
      assert s + b == s;
    } else {
      TrimRightBlank(s, b[..|b| - 1]);
      assert (s + b)[..|s + b| - 1] == s + b[..|b| - 1];
    }
  }

  lemma {:induction false} TrimLeftAppend(s: string, b: string)
    requires Blank(b)
    ensures TrimRight(TrimLeft(s + b)) == TrimRight(TrimLeft(s))
  {
    if s != "" && IsSpace(s[0]) {
      TrimLeftAppend(s[1..], b);
      assert (s + b)[1..] == s[1..] + b;
    } else if s == "" {
      assert s + b == b + "";
      TrimLeftBlank(b, "");
    } else {
      TrimRightBlank(s, b);
    }
  }

  /** White space around a component is ignored. */
  lemma SpaceIgnored(left: string, text: string, right: string)
    requires Blank(left) && Blank(right)
    ensures ParseComponent(left + text + right) == ParseComponent(text)
  {
    hide ParseNumber, TrimLeft, TrimRight;
    assert left + text + right == left + (text + right);
    TrimLeftBlank(left, text + right);
    TrimLeftAppend(text, right);
  }

  /** How a number may be written. */
  datatype Notation = Dec | Hex | Bin | Oct

  function BaseOf(notation: Notation): nat {
    match notation
    case Dec => 10
    case Hex => 16
    case Bin => 2
    case Oct => 8
  }

  /** The number with its prefix: 0x, 0b or 0, or none for a decimal one. */
  function Written(n: nat, notation: Notation, upper: bool): string {
    match notation
    case Dec => Digits(n, 10, upper)
    case Hex => (if upper then "0X" else "0x") + Digits(n, 16, upper)
    case Bin => (if upper then "0B" else "0b") + Digits(n, 2, upper)
    case Oct => "0" + Digits(n, 8, upper)
  }

  predicate Alphanumeric(c: char) {
    '0' <= c <= '9' || 'a' <= c <= 'z' || 'A' <= c <= 'Z'
  }

  predicate Plain(s: string) {
    s != "" && forall i :: 0 <= i < |s| ==> Alphanumeric(s[i])
  }

  lemma {:induction false} DigitsParse(n: nat, base: nat, upper: bool)
    requires 2 <= base <= 16
    ensures var s := Digits(n, base, upper);
      && Plain(s) && AllDigits(s, base) && DigitsValue(s, base) == n && DigitValue(s[0]) < base && (n > 0 ==> s[0] != '0')
  {
    if n >= base {
      DivisionShrinks(n, base);
      DigitsParse(n / base, base, upper);
      var s, init := Digits(n, base, upper), Digits(n / base, base, upper);
      assert s[..|s| - 1] == init && s[0] == init[0];
    }
  }

  lemma DivisionShrinks(n: nat, base: nat)
    requires 2 <= base <= n
    ensures 0 < n / base < n && n / base * base + n % base == n
  {
  }

  /** Every notation reads back as the number written. */
  lemma WrittenNumber(n: nat, notation: Notation, upper: bool)
    ensures Plain(Written(n, notation, upper)) && ParseUnsigned(Written(n, notation, upper)) == Number(n)
  {
    hide DigitsValue, AllDigits, Digits;
    var base := BaseOf(notation);
    var s, d := Written(n, notation, upper), Digits(n, base, upper);
    DigitsParse(n, base, upper);
    match notation
    case Dec => {
      if n == 0 {
        ZeroDigit(upper);
      }
    }
    case Hex => {
      assert s[2..] == d;
    }
    case Bin => {
      assert s[2..] == d;
    }
    case Oct => {
      assert s[1..] == d && s[1] == d[0];
      OctalDigit(d[0]);
    }
  }

  lemma ZeroDigit(upper: bool)
    ensures Digits(0, 10, upper) == "0"
  {
  }

  lemma OctalDigit(c: char)
    requires DigitValue(c) < 8
    ensures '0' <= c <= '7'
  {
  }

  function Lower(c: char): char {
    if 'A' <= c <= 'Z' then (c as nat - 'A' as nat + 'a' as nat) as char else c
  }

  function Lowered(s: string): string {
    seq(|s|, i requires 0 <= i < |s| => Lower(s[i]))
  }

  lemma {:induction false} SameDigits(s: string, base: nat)
    ensures AllDigits(Lowered(s), base) <==> AllDigits(s, base)
    ensures DigitsValue(Lowered(s), base) == DigitsValue(s, base)
  {
    assert forall i :: 0 <= i < |s| ==> DigitValue(Lowered(s)[i]) == DigitValue(s[i]);
    if s != "" {
      SameDigits(s[..|s| - 1], base);
      assert Lowered(s)[..|s| - 1] == Lowered(s[..|s| - 1]);
    }
  }

  /** Upper and lower case mean the same, letter by letter. */
  lemma CaseIgnored(s: string)
    ensures ParseUnsigned(Lowered(s)) == ParseUnsigned(s)
  {
    hide DigitsValue, AllDigits;
    SameDigits(s, 10);
    if |s| >= 2 {
      SameDigits(s[1..], 8);
      SameDigits(s[2..], 2);
      SameDigits(s[2..], 16);
      assert Lowered(s)[1..] == Lowered(s[1..]) && Lowered(s)[2..] == Lowered(s[2..]);
    }
  }

  predicate AllIn(s: string, chars: string) {
    s != "" && forall i :: 0 <= i < |s| ==> s[i] in chars
  }

  /** Exactly these texts are numbers. */
  lemma NumberIff(s: string)
    ensures ParseUnsigned(s).Number? <==>
      || ((s == "0" || (s != "" && s[0] != '0')) && AllIn(s, "0123456789"))
      || (|s| > 2 && s[0] == '0' && (s[1] == 'x' || s[1] == 'X') && AllIn(s[2..], "0123456789abcdefABCDEF"))
      || (|s| > 2 && s[0] == '0' && (s[1] == 'b' || s[1] == 'B') && AllIn(s[2..], "01"))
      || (|s| > 1 && s[0] == '0' && AllIn(s[1..], "01234567"))
  {
    hide DigitsValue, AllDigits, AllIn;
    if |s| >= 2 && s[0] == '0' {
      CharsOf(s[1..]);
      CharsOf(s[2..]);
      if AllIn(s[1..], "01234567") {
        FirstIn(s[1..], "01234567");
      }
    } else {
      CharsOf(s);
    }
  }

  lemma FirstIn(s: string, chars: string)
    requires AllIn(s, chars)
    ensures s[0] in chars
  {
  }

  lemma CharsOf(s: string)
    ensures AllIn(s, "0123456789") <==> s != "" && AllDigits(s, 10)
    ensures AllIn(s, "0123456789abcdefABCDEF") <==> s != "" && AllDigits(s, 16)
    ensures AllIn(s, "01") <==> s != "" && AllDigits(s, 2)
    ensures AllIn(s, "01234567") <==> s != "" && AllDigits(s, 8)
  {
    assert forall c: char :: c in "0123456789" <==> DigitValue(c) < 10;
    assert forall c: char :: c in "0123456789abcdefABCDEF" <==> DigitValue(c) < 16;
    assert forall c: char :: c in "01" <==> DigitValue(c) < 2;
    assert forall c: char :: c in "01234567" <==> DigitValue(c) < 8;
  }

  /** A component in any notation, with or without a plus sign and a hardening mark. */
  datatype Item = Item(n: nat, notation: Notation, upper: bool, plus: bool, hardened: bool) {
    function Text(): string {
      (if plus then "+" else "") + Written(n, notation, upper) + (if hardened then "'" else "")
    }

    function Value(): nat {
      if hardened then 0x8000_0000 + n else n
    }

    /** A plain component is a 32-bit number, a hardened one a 31-bit number. */
    predicate Fits() {
      n < if hardened then 0x8000_0000 else 0x1_0000_0000
    }
  }

  /** The text without its mark, and what it is trimmed to. */
  lemma Unmarked(sign: string, w: string, hardened: bool)
    requires Plain(w) && (sign == "" || sign == "+" || sign == "-")
    ensures var text := sign + w + (if hardened then "'" else "");
      && TrimSpace(text) == text && text != "" && (text[|text| - 1] == '\'' <==> hardened) && '/' !in text
      && (hardened ==> text[..|text| - 1] == sign + w) && TrimSpace(sign + w) == sign + w
  {
    var text := sign + w + (if hardened then "'" else "");
    TrimNothing(sign + w);
    TrimNothing(text);
    if hardened {
      assert text[..|text| - 1] == sign + w;
    } else {
      assert text == sign + w;
    }
  }

  lemma SignedNumber(sign: string, w: string, n: nat)
    requires Plain(w) && ParseUnsigned(w) == Number(n) && (sign == "" || sign == "+" || sign == "-")
    ensures ParseNumber(sign + w) == var v: int := n; Number(if sign == "-" then -v else v)
  {
    hide ParseUnsigned;
    if sign == "" {
      assert sign + w == w;
    } else {
      assert (sign + w)[1..] == w;
    }
  }

  /** A component in any notation parses to its value exactly if it fits, and is out of range otherwise. */
  lemma ItemRoundTrip(item: Item)
    ensures ParseComponent(item.Text()) == (if item.Fits() then Ok(item.Value()) else Error(OutOfRange)) && '/' !in item.Text()
  {
    hide ParseUnsigned, TrimSpace, Written;
    var w, sign := Written(item.n, item.notation, item.upper), if item.plus then "+" else "";
    WrittenNumber(item.n, item.notation, item.upper);
    Unmarked(sign, w, item.hardened);
    SignedNumber(sign, w, item.n);
    hide ParseNumber;
    assert item.Text() == sign + w + (if item.hardened then "'" else "");
    if !item.hardened {
      assert item.Text() == sign + w;
    }
  }

  /** A minus sign before anything but zero is out of range. */
  lemma NegativeRejected(n: nat, notation: Notation, upper: bool, hardened: bool)
    ensures var text := "-" + Written(n, notation, upper) + (if hardened then "'" else "");
      ParseComponent(text) == if n > 0 then Error(OutOfRange) else Ok(if hardened then 0x8000_0000 else 0)
  {
    hide ParseUnsigned, TrimSpace, Written;
    var w := Written(n, notation, upper);
    WrittenNumber(n, notation, upper);
    Unmarked("-", w, hardened);
    SignedNumber("-", w, n);
    hide ParseNumber;
    if !hardened {
      assert "-" + w + "" == "-" + w;
    }
  }

  /** A text that is no number in any notation is an invalid component. */
  lemma InvalidRejected(w: string, hardened: bool)
    requires Plain(w) && !ParseUnsigned(w).Number?
    ensures ParseComponent(w + if hardened then "'" else "") == Error(InvalidComponent)
  {
    hide ParseUnsigned, TrimSpace;
    Unmarked("", w, hardened);
    assert "" + w == w;
    if !hardened {
      assert w + "" == w;
    }
  }

  lemma {:induction false} TrimLeftAll(s: string)
    ensures TrimLeft(s) == "" <==> Blank(s)
  {
    if s != "" {
      TrimLeftAll(s[1..]);
      assert s == [s[0]] + s[1..];
    }
  }

  lemma {:induction false} TrimRightAll(s: string)
    ensures TrimRight(s) == "" <==> Blank(s)
  {
    if s != "" {
      TrimRightAll(s[..|s| - 1]);
      assert s == s[..|s| - 1] + [s[|s| - 1]];
    }
  }

  lemma {:induction false} TrimLeftStarts(s: string)
    ensures TrimLeft(s) != "" ==> !IsSpace(TrimLeft(s)[0])
  {
    if s != "" && IsSpace(s[0]) {
      TrimLeftStarts(s[1..]);
    }
  }

  /** A path is ambiguous if and only if nothing but white space stands before its first slash. */
  lemma AmbiguousIff(s: string)
    ensures Parse(s) == Error(AmbiguousPath) <==> Blank(Split(s)[0])
  {
    hide Split, TrimLeft, TrimRight, ParseComponent;
    var first := Split(s)[0];
    TrimLeftAll(first);
    TrimRightAll(TrimLeft(first));
    TrimLeftStarts(first);
    NoAmbiguity(Split(s));
    NoAmbiguity(Split(s)[1..]);
  }

  lemma {:induction false} NoAmbiguity(parts: seq<string>)
    ensures ParseAll(parts) != Error(AmbiguousPath) && ParseAll(parts) != Error(EmptyPath)
  {
    if parts != [] {
      NoAmbiguity(parts[..|parts| - 1]);
    }
  }

  /** It is empty if and only if it is the letter m alone. */
  lemma EmptyIff(s: string)
    ensures Parse(s) == Error(EmptyPath) <==> Split(s) == [Split(s)[0]] && TrimSpace(Split(s)[0]) == "m"
  {
    hide Split, TrimSpace, ParseComponent;
    NoAmbiguity(Split(s));
    NoAmbiguity(Split(s)[1..]);
  }

  function ItemsText(items: seq<Item>): string {
    if items == [] then "m" else ItemsText(items[..|items| - 1]) + "/" + items[|items| - 1].Text()
  }

  function ItemsValue(items: seq<Item>): seq<nat> {
    seq(|items|, i requires 0 <= i < |items| => items[i].Value())
  }

  lemma {:induction false} SplitItems(items: seq<Item>)
    requires forall i :: 0 <= i < |items| ==> items[i].Fits()
    ensures Split(ItemsText(items))[0] == "m" && |Split(ItemsText(items))| == |items| + 1
    ensures ParseAll(Split(ItemsText(items))[1..]) == Ok(ItemsValue(items))
  {
    hide ParseComponent, Split, Item.Text, Item.Value, Item.Fits;
    if items == [] {
      SplitPlain("m");
    } else {
      var init, last := items[..|items| - 1], items[|items| - 1];
      SplitItems(init);
      ItemRoundTrip(last);
      SplitAppend(ItemsText(init), last.Text());
      var parts := Split(ItemsText(items))[1..];
      assert parts == Split(ItemsText(init))[1..] + [last.Text()];
      assert parts[..|parts| - 1] == Split(ItemsText(init))[1..];
      assert ItemsValue(init) + [last.Value()] == ItemsValue(items);
    }
  }

  /** A path whose components are written in any notations parses to their values. */
  lemma AnyNotation(items: seq<Item>)
    requires items != [] && forall i :: 0 <= i < |items| ==> items[i].Fits()
    ensures Parse(ItemsText(items)) == Ok(ItemsValue(items))
  {
    hide Item.Fits, Split, ParseAll, ItemsText, ItemsValue, TrimSpace;
    SplitItems(items);
    TrimNothing("m");
  }

  /** The default root as it is documented. */
  lemma DefaultRoot()
    ensures Print(DEFAULT_ROOT) == "m/44'/60'/0'/0"
  {
    assert Decimal(44) == Decimal(4) + "4" && Decimal(60) == Decimal(6) + "0";
    assert PrintComponent(HARDENED + 44) == "44'" && PrintComponent(HARDENED + 60) == "60'" && PrintComponent(HARDENED) == "0'";
    var r := DEFAULT_ROOT;
    assert r[..3] == [HARDENED + 44, HARDENED + 60, HARDENED] && r[..3][..2] == [HARDENED + 44, HARDENED + 60];
    assert r[..3][..2][..1] == [HARDENED + 44] && r[..3][..2][..1][..0] == [];
    assert Print(r[..3][..2][..1]) == "m/44'";
    assert Print(r[..3][..2]) == "m/44'/60'";
    assert Print(r[..3]) == "m/44'/60'/0'";
  }

  method ParseDerivationPath(path: string) returns (r: Parsed<seq<nat>>)
    ensures r == Parse(path)
  {
    hide ParseComponent, TrimSpace, Split;
    var result: seq<nat> := [];
    var components := Split(path);
    if TrimSpace(components[0]) == "" {
      return Error(AmbiguousPath);
    } else if TrimSpace(components[0]) == "m" {
      components := components[1..];
    } else {
      result := DEFAULT_ROOT;
    }
    if |components| == 0 {
      return Error(EmptyPath);
    }
    ghost var prefix := result;
    assert components[..0] == [] && prefix + [] == prefix;
    for i := 0 to |components|
      invariant ParseAll(components[..i]).Ok? && result == prefix + ParseAll(components[..i]).value
    {
      assert components[..i + 1][..i] == components[..i];
      var value := ReadComponent(components[i]);
      if value.Error? {
        ErrorStays(components, i + 1);
        return Error(value.error);
      }
      result := result + [value.value];
    }
    assert components[..|components|] == components;
    assert prefix == [] ==> prefix + ParseAll(components).value == ParseAll(components).value;
    r := Ok(result);
  }

  method ReadComponent(text: string) returns (r: Parsed<nat>)
    ensures r == ParseComponent(text)
  {
    hide ParseNumber, TrimSpace;
    var component := TrimSpace(text);
    var value: nat := 0;
    if component != "" && component[|component| - 1] == '\'' {
      value := HARDENED;
      component := TrimSpace(component[..|component| - 1]);
    }
    var number := ParseNumber(component);
    if number.NotANumber? {
      return Error(InvalidComponent);
    }
    var max := MAX_UINT32 - value;
    if number.value < 0 || number.value > max {
      return Error(OutOfRange);
    }
    r := Ok(value + number.value);
  }

  /** The first error is the answer. */
  lemma {:induction false} ErrorStays(parts: seq<string>, i: nat)
    requires i <= |parts| && ParseAll(parts[..i]).Error?
    ensures ParseAll(parts) == ParseAll(parts[..i])
    decreases |parts|
  {
    if i == |parts| {
      assert parts[..i] == parts;
    } else {
      var init := parts[..|parts| - 1];
      assert init[..i] == parts[..i];
      ErrorStays(init, i);
    }
  }

  method ToString(path: seq<nat>) returns (result: string)
    ensures result == Print(path)
  {
    result := "m";
    for i := 0 to |path|
      invariant result == Print(path[..i])
    {
      var component, hardened := path[i], false;
      if component >= HARDENED {
        component, hardened := component - HARDENED, true;
      }
      assert path[..i + 1][..i] == path[..i];
      ghost var before := result;
      result := result + "/" + Decimal(component);
      if hardened {
        result := result + "'";
      }
      assert result == before + "/" + PrintComponent(path[i]);
    }
    assert path[..|path|] == path;
  }
}
