/** The parts of C++ string streams that the parsers use.

  A stream is the text that is still to be read, with the fail flag.  Once the flag is
  set, every further extraction fails.  Numbers follow the C++ standard: white space is
  skipped, then an optional sign, in base 16 an optional `0x`, and as many digits as
  there are; no digit, or a value out of range, is a failure. */
module Streams {

  datatype Option<+T> = None | Some(value: T) {
    predicate IsFailure() { None? }

    function PropagateFailure<U>(): Option<U>
      requires None?
    {
      None
    }

    function Extract(): T
      requires Some?
    {
      value
    }
  }

  /** A value that was read, and the text after it. */
  datatype Read<+T> = Read(value: T, rest: string)

  // ---------------------------------------------------------------------------
  // Words, characters and lines
  // ---------------------------------------------------------------------------

  /** White space in the C locale. */
  predicate IsSpace(c: char) {
    c == ' ' || '\t' <= c <= '\r'
  }

  /** The sets of characters that extractions run over. */
  datatype CharClass = Space | NonSpace | Digit(base: Base) | Not(delim: char) {
    predicate Has(c: char) {
      match this
      case Space => IsSpace(c)
      case NonSpace => !IsSpace(c)
      case Digit(base) => IsDigit(c, base)
      case Not(delim) => c != delim
    }
  }

  /** The length of the longest prefix whose characters are all in the class. */
  function Span(s: string, cc: CharClass): (n: nat)
    ensures n <= |s| && (forall k :: 0 <= k < n ==> cc.Has(s[k]))
    ensures n < |s| ==> !cc.Has(s[n])
  {
    if s == "" || !cc.Has(s[0]) then 0 else 1 + Span(s[1..], cc)
  }

  lemma {:induction false} SpanOfPrefix(a: string, rest: string, cc: CharClass)
    requires forall k :: 0 <= k < |a| ==> cc.Has(a[k])
    requires rest != "" ==> !cc.Has(rest[0])
    ensures Span(a + rest, cc) == |a|
    ensures (a + rest)[..|a|] == a && (a + rest)[|a|..] == rest
  {
    var s, n := a + rest, Span(a + rest, cc);
    assert forall k :: 0 <= k < |a| ==> s[k] == a[k];
    assert rest != "" ==> s[|a|] == rest[0];
  }

  function SkipSpace(s: string): string {
    s[Span(s, Space)..]
  }

  /** `>> std::string` */
  function ReadWord(s: string): (r: Option<Read<string>>)
    ensures r.Some? ==> IsWord(r.value.value) && |r.value.rest| < |s|
  {
    var t := SkipSpace(s);
    var n := Span(t, NonSpace);
    if n == 0 then None else Some(Read(t[..n], t[n..]))
  }

  /** `>> char` */
  function ReadChar(s: string): Option<Read<char>> {
    var t := SkipSpace(s);
    if t == "" then None else Some(Read(t[0], t[1..]))
  }

  /** `std::getline`: the delimiter is consumed and not returned. */
  function GetLine(s: string, delim: char): (r: Option<Read<string>>)
    ensures r.None? <==> s == ""
    ensures r.Some? ==> delim !in r.value.value && |r.value.rest| < |s|
    ensures r.Some? ==> s == r.value.value || s == r.value.value + [delim] + r.value.rest
    ensures r.Some? && delim !in s ==> r.value == Read(s, "")
  {
    if s == "" then None else
    var n := Span(s, Not(delim));
    Some(Read(s[..n], if n < |s| then s[n + 1..] else ""))
  }

  predicate IsWord(w: string) {
    w != "" && forall k :: 0 <= k < |w| ==> !IsSpace(w[k])
  }

  /** The text after a word: nothing, or white space. */
  predicate EndsWord(rest: string) {
    rest == "" || IsSpace(rest[0])
  }

  lemma {:induction false} ReadWordPrinted(w: string, rest: string)
    requires IsWord(w) && EndsWord(rest)
    ensures ReadWord(w + rest) == Some(Read(w, rest))
  {
    SkipSpaceAt(w + rest);
    SpanOfPrefix(w, rest, NonSpace);
  }

  lemma {:induction false} ReadCharPrinted(c: char, rest: string)
    requires !IsSpace(c)
    ensures ReadChar([c] + rest) == Some(Read(c, rest))
  {
    SkipSpaceAt([c] + rest);
  }

  lemma {:induction false} SkipSpaceAt(t: string)
    requires t != "" ==> !IsSpace(t[0])
    ensures SkipSpace(t) == t
  {
  }

  /** A space in front makes no difference to any extraction. */
  lemma {:induction false} SpaceIsSkipped(t: string)
    ensures SkipSpace(" " + t) == SkipSpace(t)
    ensures ReadWord(" " + t) == ReadWord(t)
    ensures forall base :: ReadNumeral(" " + t, base) == ReadNumeral(t, base)
  {
    var s, n := " " + t, Span(t, Space);
    assert s[1..] == t;
    assert s[1 + n..] == t[n..];
  }

  // ---------------------------------------------------------------------------
  // Splitting into lines or tokens
  // ---------------------------------------------------------------------------

  /** What a loop of `std::getline` calls reads. */
  function Split(s: string, delim: char): seq<string>
    decreases |s|
  {
    match GetLine(s, delim)
    case None => []
    case Some(Read(line, rest)) => [line] + Split(rest, delim)
  }

  lemma {:induction false} SplitFirst(a: string, b: string, delim: char)
    requires delim !in a
    ensures Split(a + [delim] + b, delim) == [a] + Split(b, delim)
    ensures a != "" ==> Split(a, delim) == [a]
  {
    SpanOfPrefix(a, [delim] + b, Not(delim));
    assert a + [delim] + b == a + ([delim] + b);
    var s := a + [delim] + b;
    assert s[|a| + 1..] == b;
    assert GetLine(s, delim) == Some(Read(a, b));
  }

  predicate Terminated(s: string, delim: char) {
    s != "" ==> s[|s| - 1] == delim
  }

  /** A text whose last line is terminated can be split on its own. */
  lemma {:induction false} SplitAppend(a: string, b: string, delim: char)
    requires Terminated(a, delim)
    ensures Split(a + b, delim) == Split(a, delim) + Split(b, delim)
    decreases |a|
  {
    if a == "" {
      assert a + b == b;
    } else {
      var line, rest := FirstLine(a, delim);
      SplitAppend(rest, b, delim);
      SplitFirst(line, rest, delim);
      SplitFirst(line, rest + b, delim);
      Regroup(line + [delim], rest, b);
      Regroup([line], Split(rest, delim), Split(b, delim));
    }
  }

  lemma {:induction false} FirstLine(a: string, delim: char) returns (line: string, rest: string)
    requires a != "" && Terminated(a, delim)
    ensures a == (line + [delim]) + rest
    ensures delim !in line && Terminated(rest, delim) && |rest| < |a|
  {
    var n := Span(a, Not(delim));
    assert a[|a| - 1] == delim;
    line, rest := a[..n], a[n + 1..];
  }

  lemma {:induction false} Regroup<T>(a: seq<T>, b: seq<T>, c: seq<T>)
    ensures (a + b) + c == a + (b + c)
  {
  }

  function Join(parts: seq<string>, delim: char): string {
    if parts == [] then ""
    else if |parts| == 1 then parts[0]
    else parts[0] + [delim] + Join(parts[1..], delim)
  }

  lemma {:induction false} SplitJoined(parts: seq<string>, delim: char)
    requires forall k :: 0 <= k < |parts| ==> parts[k] != "" && delim !in parts[k]
    ensures Split(Join(parts, delim), delim) == parts
  {
    if parts != [] {
      SplitFirst(parts[0], Join(parts[1..], delim), delim);
      if |parts| > 1 {
        SplitJoined(parts[1..], delim);
        assert parts == [parts[0]] + parts[1..];
      }
    }
  }

  function Unlines(lines: seq<string>): string {
    if lines == [] then "" else lines[0] + "\n" + Unlines(lines[1..])
  }

  lemma {:induction false} SplitUnlines(lines: seq<string>)
    requires forall k :: 0 <= k < |lines| ==> '\n' !in lines[k]
    ensures Split(Unlines(lines), '\n') == lines
  {
    if lines != [] {
      SplitFirst(lines[0], Unlines(lines[1..]), '\n');
      SplitUnlines(lines[1..]);
    }
  }

  // ---------------------------------------------------------------------------
  // A loop that keeps the lines it can parse
  // ---------------------------------------------------------------------------

  function Kept<T>(r: Option<T>): seq<T> {
    match r
    case None => []
    case Some(value) => [value]
  }

  /** The results for the lines that `parse` accepts, in order. */
  function FilterMap<T>(lines: seq<string>, parse: string -> Option<T>): seq<T> {
    if lines == [] then []
    else FilterMap(lines[..|lines| - 1], parse) + Kept(parse(lines[|lines| - 1]))
  }

  lemma {:induction false} FilterMapOneMore<T>(lines: seq<string>, line: string, parse: string -> Option<T>)
    ensures FilterMap(lines + [line], parse) == FilterMap(lines, parse) + Kept(parse(line))
  {
    assert (lines + [line])[..|lines|] == lines;
  }

  lemma {:induction false} FilterMapAppend<T>(a: seq<string>, b: seq<string>, parse: string -> Option<T>)
    ensures FilterMap(a + b, parse) == FilterMap(a, parse) + FilterMap(b, parse)
    decreases |b|
  {
    if b == [] {
      assert a + b == a;
    } else {
      var front, last := b[..|b| - 1], b[|b| - 1];
      FilterMapAppend(a, front, parse);
      assert (a + b)[..|a + b| - 1] == a + front;
      Regroup(FilterMap(a, parse), FilterMap(front, parse), Kept(parse(last)));
    }
  }

  /** A line that is not accepted is dropped and changes nothing else.  `before` is empty
      or ends with a newline. */
  lemma {:induction false} BadLineDropped<T>(before: string, bad: string, after: string, parse: string -> Option<T>)
    requires Terminated(before, '\n') && '\n' !in bad && parse(bad).None?
    ensures FilterMap(Split(before + (bad + ['\n'] + after), '\n'), parse) ==
            FilterMap(Split(before, '\n'), parse) + FilterMap(Split(after, '\n'), parse)
  {
    hide Split, FilterMap;
    var b := Split(after, '\n');
    SplitAppend(before, bad + ['\n'] + after, '\n');
    SplitFirst(bad, after, '\n');
    FilterMapAppend(Split(before, '\n'), [bad] + b, parse);
    BadLineFirst(bad, b, parse);
  }

  lemma {:induction false} BadLineFirst<T>(bad: string, lines: seq<string>, parse: string -> Option<T>)
    requires parse(bad).None?
    ensures FilterMap([bad] + lines, parse) == FilterMap(lines, parse)
  {
    FilterMapAppend([bad], lines, parse);
    assert FilterMap([bad], parse) == FilterMap([bad][..0], parse) + Kept(parse(bad)) == [];
    assert [] + FilterMap(lines, parse) == FilterMap(lines, parse);
  }

  /** Two texts, the first of them complete, are parsed independently. */
  lemma {:induction false} TextsAreIndependent<T>(before: string, after: string, parse: string -> Option<T>)
    requires Terminated(before, '\n')
    ensures FilterMap(Split(before + after, '\n'), parse) ==
            FilterMap(Split(before, '\n'), parse) + FilterMap(Split(after, '\n'), parse)
  {
    hide Split;
    SplitAppend(before, after, '\n');
    FilterMapAppend(Split(before, '\n'), Split(after, '\n'), parse);
  }

  lemma {:induction false} FilterMapOfAccepted<T>(lines: seq<string>, parse: string -> Option<T>, values: seq<T>)
    requires |lines| == |values|
    requires forall k :: 0 <= k < |lines| ==> parse(lines[k]) == Some(values[k])
    ensures FilterMap(lines, parse) == values
    decreases |lines|
  {
    if lines != [] {
      var n := |lines| - 1;
      FilterMapOfAccepted(lines[..n], parse, values[..n]);
      assert values == values[..n] + [values[n]];
    }
  }

  // ---------------------------------------------------------------------------
  // Numbers
  // ---------------------------------------------------------------------------

  datatype Base = Dec | Hex {
    function Radix(): nat {
      if Dec? then 10 else 16
    }

    function Times(n: nat): nat {
      if Dec? then 10 * n else 16 * n
    }

    function Over(n: nat): nat {
      if Dec? then n / 10 else n / 16
    }

    function Mod(n: nat): (m: nat)
      ensures m < Radix() && Times(Over(n)) + m == n
    {
      if Dec? then n % 10 else n % 16
    }
  }

  /** The value of a digit, in either case; 16 for any other character. */
  function DigitValue(c: char): (v: nat)
    ensures v <= 16
  {
    if '0' <= c <= '9' then (c - '0') as nat
    else if 'a' <= c <= 'f' then 10 + (c - 'a') as nat
    else if 'A' <= c <= 'F' then 10 + (c - 'A') as nat
    else 16
  }

  predicate IsDigit(c: char, base: Base) {
    DigitValue(c) < base.Radix()
  }

  function NatOf(digits: string, base: Base): nat {
    if digits == "" then 0
    else base.Times(NatOf(digits[..|digits| - 1], base)) + DigitValue(digits[|digits| - 1])
  }

  datatype Numeral = Numeral(negative: bool, magnitude: nat) {
    function Value(): int {
      if negative then 0 - magnitude else magnitude
    }
  }

  function AfterSign(t: string): string {
    if t != "" && (t[0] == '-' || t[0] == '+') then t[1..] else t
  }

  function AfterPrefix(u: string, base: Base): string {
    if base.Hex? && |u| >= 2 && u[0] == '0' && (u[1] == 'x' || u[1] == 'X') then u[2..] else u
  }

  function ReadNumeral(s: string, base: Base): Option<Read<Numeral>> {
    var t := SkipSpace(s);
    ReadDigits(t != "" && t[0] == '-', AfterPrefix(AfterSign(t), base), base)
  }

  function ReadDigits(negative: bool, s: string, base: Base): Option<Read<Numeral>> {
    var n := Span(s, Digit(base));
    if n == 0 then None else Some(Read(Numeral(negative, NatOf(s[..n], base)), s[n..]))
  }

  const INT_MIN: int := -0x8000_0000
  const INT_MAX: int := 0x7FFF_FFFF

  /** `>> int` */
  function ReadInt(s: string, base: Base): (r: Option<Read<int>>)
    ensures r.Some? ==> INT_MIN <= r.value.value <= INT_MAX
  {
    var Read(num, rest) :- ReadNumeral(s, base);
    if INT_MIN <= num.Value() <= INT_MAX then Some(Read(num.Value(), rest)) else None
  }

  /** `>> unsigned` for a type with values below `bound`; a minus sign wraps around. */
  function ReadUnsigned(s: string, base: Base, bound: nat): (r: Option<Read<nat>>)
    ensures r.Some? ==> r.value.value < bound
  {
    var Read(num, rest) :- ReadNumeral(s, base);
    if num.magnitude >= bound then None
    else
      var n: nat := if num.negative then (bound - num.magnitude) % bound else num.magnitude;
      Some(Read(n, rest))
  }

  // Printing, and reading back

  function DigitChar(v: nat): (c: char)
    requires v < 16
    ensures DigitValue(c) == v
  {
    if v < 10 then '0' + v as char else 'a' + (v - 10) as char
  }

  function Digits(n: nat, base: Base): (s: string)
    ensures s != ""
  {
    (if n < base.Radix() then "" else Digits(base.Over(n), base)) + [DigitChar(base.Mod(n))]
  }

  /** Digits with leading zeros, as a field width makes them. */
  function Padded(zeros: nat, n: nat, base: Base): string {
    seq(zeros, _ => '0') + Digits(n, base)
  }

  function Minus(negative: bool, digits: string): string {
    if negative then "-" + digits else digits
  }

  function Abs(n: int): nat {
    if n < 0 then -n else n
  }

  function Signed(zeros: nat, n: int, base: Base): string {
    Minus(n < 0, Padded(zeros, Abs(n), base))
  }

  predicate AllDigits(s: string, base: Base) {
    forall k :: 0 <= k < |s| ==> IsDigit(s[k], base)
  }

  lemma {:induction false} NatOfOneMore(digits: string, c: char, base: Base)
    ensures NatOf(digits + [c], base) == base.Times(NatOf(digits, base)) + DigitValue(c)
  {
    assert (digits + [c])[..|digits|] == digits;
  }

  lemma {:induction false} NatOfDigits(n: nat, base: Base)
    ensures NatOf(Digits(n, base), base) == n
    ensures AllDigits(Digits(n, base), base)
    decreases n
  {
    var c := DigitChar(base.Mod(n));
    if n < base.Radix() {
      NatOfOneMore("", c, base);
      assert "" + [c] == [c];
    } else {
      NatOfDigits(base.Over(n), base);
      NatOfOneMore(Digits(base.Over(n), base), c, base);
    }
  }

  lemma {:induction false} NatOfPadding(zeros: string, digits: string, base: Base)
    requires forall k :: 0 <= k < |zeros| ==> zeros[k] == '0'
    ensures NatOf(zeros + digits, base) == NatOf(digits, base)
    decreases |digits|, |zeros|
  {
    var s := zeros + digits;
    if digits != "" {
      assert s[..|s| - 1] == zeros + digits[..|digits| - 1];
      NatOfPadding(zeros, digits[..|digits| - 1], base);
    } else if zeros != "" {
      assert s[..|s| - 1] == zeros[..|zeros| - 1] + "";
      NatOfPadding(zeros[..|zeros| - 1], "", base);
    }
  }

  lemma {:induction false} NatOfPadded(zeros: nat, n: nat, base: Base)
    ensures NatOf(Padded(zeros, n, base), base) == n
    ensures AllDigits(Padded(zeros, n, base), base)
    ensures Padded(zeros, n, base) != ""
  {
    NatOfDigits(n, base);
    NatOfPadding(seq(zeros, _ => '0'), Digits(n, base), base);
  }

  /** The text after a number: nothing, or what cannot continue it. */
  predicate EndsNumber(rest: string) {
    rest == "" || (!IsDigit(rest[0], Hex) && rest[0] != 'x' && rest[0] != 'X')
  }

  lemma {:induction false} ReadNumeralPrinted(negative: bool, digits: string, base: Base, rest: string)
    requires digits != "" && AllDigits(digits, base) && EndsNumber(rest)
    ensures ReadNumeral(Minus(negative, digits) + rest, base)
            == Some(Read(Numeral(negative, NatOf(digits, base)), rest))
  {
    SignOfDigits(negative, digits, base, rest);
    PrefixOfDigits(digits, base, rest);
    SpanOfPrefix(digits, rest, Digit(base));
  }

  lemma {:induction false} SignOfDigits(negative: bool, digits: string, base: Base, rest: string)
    requires digits != "" && AllDigits(digits, base)
    ensures var s := Minus(negative, digits) + rest;
            SkipSpace(s) == s && (s[0] == '-' <==> negative) && AfterSign(s) == digits + rest
  {
    var s := Minus(negative, digits) + rest;
    assert IsDigit(digits[0], base);
    if negative {
      assert s[0] == '-' && s[1..] == digits + rest;
    } else {
      assert s[0] == digits[0];
    }
    SkipSpaceAt(s);
  }

  lemma {:induction false} PrefixOfDigits(digits: string, base: Base, rest: string)
    requires digits != "" && AllDigits(digits, base) && EndsNumber(rest)
    ensures AfterPrefix(digits + rest, base) == digits + rest
  {
    var u := digits + rest;
    if |u| >= 2 {
      if |digits| >= 2 {
        assert u[1] == digits[1] && IsDigit(digits[1], base);
      } else {
        assert u[1] == rest[0];
      }
    }
  }

  lemma {:induction false} ReadIntPrinted(zeros: nat, n: int, base: Base, rest: string)
    requires INT_MIN <= n <= INT_MAX && EndsNumber(rest)
    ensures ReadInt(Signed(zeros, n, base) + rest, base) == Some(Read(n, rest))
  {
    var digits := Padded(zeros, Abs(n), base);
    NatOfPadded(zeros, Abs(n), base);
    ReadNumeralPrinted(n < 0, digits, base, rest);
    assert Numeral(n < 0, NatOf(digits, base)).Value() == n;
  }

  lemma {:induction false} ReadUnsignedPrinted(zeros: nat, n: nat, base: Base, bound: nat, rest: string)
    requires n < bound && EndsNumber(rest)
    ensures ReadUnsigned(Padded(zeros, n, base) + rest, base, bound) == Some(Read(n, rest))
  {
    NatOfPadded(zeros, n, base);
    ReadNumeralPrinted(false, Padded(zeros, n, base), base, rest);
  }

  /** The next field of a line: a space, and the field as it was printed. */
  lemma {:induction false} NextWord(w: string, rest: string)
    requires IsWord(w) && EndsWord(rest)
    ensures ReadWord(" " + (w + rest)) == Some(Read(w, rest))
  {
    hide ReadNumeral, ReadWord;
    SpaceIsSkipped(w + rest);
    ReadWordPrinted(w, rest);
  }

  lemma {:induction false} NextInt(zeros: nat, n: int, base: Base, rest: string)
    requires INT_MIN <= n <= INT_MAX && EndsNumber(rest)
    ensures ReadInt(" " + (Signed(zeros, n, base) + rest), base) == Some(Read(n, rest))
  {
    hide ReadNumeral;
    SpaceIsSkipped(Signed(zeros, n, base) + rest);
    ReadIntPrinted(zeros, n, base, rest);
  }

  lemma {:induction false} NextUnsigned(zeros: nat, n: nat, base: Base, bound: nat, rest: string)
    requires n < bound && EndsNumber(rest)
    ensures ReadUnsigned(" " + (Padded(zeros, n, base) + rest), base, bound) == Some(Read(n, rest))
  {
    hide ReadNumeral;
    SpaceIsSkipped(Padded(zeros, n, base) + rest);
    ReadUnsignedPrinted(zeros, n, base, bound, rest);
  }

  // ---------------------------------------------------------------------------
  // The stream object
  // ---------------------------------------------------------------------------

  /** `std::istringstream`; also `std::ifstream`, on the contents of the file. */
  class StringStream {
    var rest: string
    var failed: bool

    constructor (text: string)
      ensures rest == text && !failed
    {
      rest, failed := text, false;
    }

    /** An extraction: it gives the value and consumes the text, or sets the flag. */
    twostate predicate Extracted<T>(r: Option<Read<T>>, value: T)
      reads this
    {
      if old(failed) || r.None? then failed
      else !failed && value == r.value.value && rest == r.value.rest
    }

    method Word() returns (w: string)
      modifies this
      ensures Extracted(ReadWord(old(rest)), w)
    {
      w := "";
      match ReadWord(rest)
      case Some(Read(value, after)) =>
        if !failed { w, rest := value, after; }
      case None => failed := true;
    }

    method Char() returns (c: char)
      modifies this
      ensures Extracted(ReadChar(old(rest)), c)
    {
      c := '\0';
      match ReadChar(rest)
      case Some(Read(value, after)) =>
        if !failed { c, rest := value, after; }
      case None => failed := true;
    }

    method Int(base: Base) returns (n: int)
      modifies this
      ensures Extracted(ReadInt(old(rest), base), n)
    {
      n := 0;
      match ReadInt(rest, base)
      case Some(Read(value, after)) =>
        if !failed { n, rest := value, after; }
      case None => failed := true;
    }

    method Unsigned(base: Base, bound: nat) returns (n: nat)
      modifies this
      ensures Extracted(ReadUnsigned(old(rest), base, bound), n)
    {
      n := 0;
      match ReadUnsigned(rest, base, bound)
      case Some(Read(value, after)) =>
        if !failed { n, rest := value, after; }
      case None => failed := true;
    }

    method Line(delim: char) returns (line: string)
      modifies this
      ensures Extracted(GetLine(old(rest), delim), line)
      ensures failed ==> line == ""
    {
      line := "";
      match GetLine(rest, delim)
      case Some(Read(value, after)) =>
        if !failed { line, rest := value, after; }
      case None => failed := true;
    }

    /** `std::ws` */
    method Ws()
      modifies this
      ensures failed == old(failed)
      ensures !failed ==> rest == SkipSpace(old(rest))
    {
      rest := SkipSpace(rest);
    }
  }
}
