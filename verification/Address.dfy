/** The text forms of an address: printing it, and reading it back character by character. */
module Addresses {
  type octet = n: int | 0 <= n < 256

  // --- digits ---

  /** The value of a hexadecimal digit, or -1. */
  function HexDigit(c: char): (n: int)
    ensures -1 <= n < 16
  {
    if '0' <= c <= '9' then c as int - '0' as int
    else if 'a' <= c <= 'f' then 10 + (c as int - 'a' as int)
    else if 'A' <= c <= 'F' then 10 + (c as int - 'A' as int)
    else -1
  }

  function HexChar(n: nat): (c: char)
    requires n < 16
    ensures HexDigit(c) == n && c != ':' && c != '.'
  {
    if n < 10 then n as char + '0' else (n - 10) as char + 'a'
  }

  /** A number in the given base without leading zeros, as `std::hex` and `std::to_string` print it. */
  function Digits(n: nat, radix: nat): (s: string)
    requires 2 <= radix <= 16
    ensures s != []
    ensures forall i :: 0 <= i < |s| ==> 0 <= HexDigit(s[i]) < radix && s[i] != ':' && s[i] != '.'
    decreases n
  {
    if n < radix then [HexChar(n)]
    else
      QuotientIsSmaller(n, radix);
      Digits(n / radix, radix) + [HexChar(n % radix)]
  }

  lemma QuotientIsSmaller(n: nat, radix: nat)
    requires 2 <= radix <= n
    ensures n / radix < n
  {
    var q := n / radix;
    assert n == radix * q + n % radix;
    if q > 0 { assert radix * q == q + (radix - 1) * q; }
  }

  /** What a run of digits amounts to, from the value of the digits before it. */
  function Value(s: string, radix: nat, acc: nat): nat {
    if s == [] then acc else Value(s[1..], radix, acc * radix + if HexDigit(s[0]) >= 0 then HexDigit(s[0]) else 0)
  }

  lemma {:induction false} ValueAppend(s: string, c: char, radix: nat, acc: nat)
    requires HexDigit(c) >= 0
    ensures Value(s + [c], radix, acc) == Value(s, radix, acc) * radix + HexDigit(c)
  {
    if s == [] {
      assert ([] + [c])[1..] == [];
    } else {
      assert (s + [c])[1..] == s[1..] + [c];
      ValueAppend(s[1..], c, radix, acc * radix + if HexDigit(s[0]) >= 0 then HexDigit(s[0]) else 0);
    }
  }

  /** Printed digits read back as the number. */
  lemma {:induction false} DigitsValue(n: nat, radix: nat)
    requires radix == 10 || radix == 16
    ensures Value(Digits(n, radix), radix, 0) == n
    decreases n
  {
    if n < radix {
      ValueAppend([], HexChar(n), radix, 0);
      assert [] + [HexChar(n)] == [HexChar(n)];
    } else {
      DigitsValue(n / radix, radix);
      ValueAppend(Digits(n / radix, radix), HexChar(n % radix), radix, 0);
      if radix == 10 { assert n == n / 10 * 10 + n % 10; } else { assert n == n / 16 * 16 + n % 16; }
    }
  }

  /** Lower-case digits of this base without a zero in front. */
  predicate Canonical(s: string, radix: nat) {
    && s != []
    && (forall i :: 0 <= i < |s| ==> ('0' <= s[i] <= '9' || 'a' <= s[i] <= 'f') && HexDigit(s[i]) < radix)
    && (|s| > 1 ==> s[0] != '0')
  }

  lemma {:induction false} DigitsAreCanonical(n: nat, radix: nat)
    requires 2 <= radix <= 16
    ensures Canonical(Digits(n, radix), radix) && (n > 0 ==> Digits(n, radix)[0] != '0')
    decreases n
  {
    if n >= radix {
      QuotientIsSmaller(n, radix);
      DigitsAreCanonical(n / radix, radix);
      QuotientIsPositive(n, radix);
    }
  }

  lemma QuotientIsPositive(n: nat, radix: nat)
    requires 2 <= radix <= n
    ensures n / radix > 0
  {
  }

  lemma LastDigit(v: nat, d: nat, radix: nat)
    requires (radix == 10 || radix == 16) && d < radix
    ensures (v * radix + d) / radix == v && (v * radix + d) % radix == d
  {
  }

  lemma DigitsAppend(v: nat, c: char, radix: nat)
    requires (radix == 10 || radix == 16) && ('0' <= c <= '9' || 'a' <= c <= 'f') && HexDigit(c) < radix
    ensures var n := v * radix + HexDigit(c); Digits(n, radix) == if v > 0 then Digits(v, radix) + [c] else [c]
  {
    LastDigit(v, HexDigit(c), radix);
    assert HexChar(HexDigit(c)) == c;
  }

  /** The printed digits are the only canonical ones with that value. */
  lemma {:induction false} CanonicalIsDigits(s: string, radix: nat)
    requires (radix == 10 || radix == 16) && Canonical(s, radix)
    ensures s == Digits(Value(s, radix, 0), radix)
    decreases |s|
  {
    var last := |s| - 1;
    var front, c := s[..last], s[last];
    assert s == front + [c];
    ValueAppend(front, c, radix, 0);
    DigitsAppend(Value(front, radix, 0), c, radix);
    if last > 0 {
      CanonicalIsDigits(front, radix);
      LeadingIsPositive(front, radix);
    }
  }

  lemma LeadingIsPositive(s: string, radix: nat)
    requires (radix == 10 || radix == 16) && Canonical(s, radix) && s[0] != '0'
    ensures Value(s, radix, 0) > 0
  {
    ValueGrows(s[1..], radix, HexDigit(s[0]));
  }

  lemma {:induction false} ValueGrows(s: string, radix: nat, acc: nat)
    requires radix >= 1
    ensures Value(s, radix, acc) >= acc
  {
    if s != [] {
      var next := acc * radix + if HexDigit(s[0]) >= 0 then HexDigit(s[0]) else 0;
      assert acc * radix >= acc;
      ValueGrows(s[1..], radix, next);
    }
  }

  function Power16(k: nat): nat {
    if k == 0 then 1 else 16 * Power16(k - 1)
  }

  lemma {:induction false} HexLength(n: nat, k: nat)
    requires k > 0 && n < Power16(k)
    ensures |Digits(n, 16)| <= k
  {
    if n >= 16 {
      assert n / 16 < Power16(k - 1);
      HexLength(n / 16, k - 1);
    }
  }

  // --- splitting a text into fields ---

  function Join(fields: seq<string>, sep: char): string {
    if fields == [] then []
    else if |fields| == 1 then fields[0]
    else fields[0] + [sep] + Join(fields[1..], sep)
  }

  function Split(s: string, sep: char): (fields: seq<string>)
    ensures fields != []
  {
    if s == [] then [[]]
    else
      var rest := Split(s[1..], sep);
      if s[0] == sep then [[]] + rest else [[s[0]] + rest[0]] + rest[1..]
  }

  lemma {:induction false} SplitOne(s: string, sep: char)
    requires sep !in s
    ensures Split(s, sep) == [s]
  {
    if s != [] {
      SplitOne(s[1..], sep);
      assert [s[0]] + s[1..] == s;
    }
  }

  lemma {:induction false} SplitFirst(s: string, rest: string, sep: char)
    requires sep !in s
    ensures Split(s + [sep] + rest, sep) == [s] + Split(rest, sep)
  {
    if s == [] {
      assert ([] + [sep] + rest)[1..] == rest;
    } else {
      SplitFirst(s[1..], rest, sep);
      var t := s + [sep] + rest;
      assert t[0] == s[0] && t[1..] == s[1..] + [sep] + rest && [s[0]] + s[1..] == s;
    }
  }

  lemma {:induction false} SplitJoin(fields: seq<string>, sep: char)
    requires fields != [] && forall i :: 0 <= i < |fields| ==> sep !in fields[i]
    ensures Split(Join(fields, sep), sep) == fields
  {
    if |fields| == 1 {
      SplitOne(fields[0], sep);
    } else {
      SplitJoin(fields[1..], sep);
      SplitFirst(fields[0], Join(fields[1..], sep), sep);
    }
  }

  // --- dotted quads: _parse_ipv4 ---

  /** `std::stoi` on a text that begins with a decimal digit: the digits up to the first other character. */
  function LeadingDigits(s: string): string {
    if s != [] && '0' <= s[0] <= '9' then [s[0]] + LeadingDigits(s[1..]) else []
  }

  datatype Result<T> = Ok(value: T) | Refused

  function Octet(s: string): Result<octet> {
    var digits := LeadingDigits(s);
    if digits == [] then Refused else Ok(Value(digits, 10, 0) % 256)
  }

  /** The first four fields between dots; what `stoi` throws on is refused. */
  function ParseQuad(s: string): Result<seq<octet>> {
    var fields := Split(s, '.');
    if |fields| < 4 then Refused
    else
      match (Octet(fields[0]), Octet(fields[1]), Octet(fields[2]), Octet(fields[3]))
      case (Ok(a), Ok(b), Ok(c), Ok(d)) => Ok([a, b, c, d])
      case _ => Refused
  }

  function PrintQuad(b: seq<octet>): string
    requires |b| == 4
  {
    Join([Digits(b[0], 10), Digits(b[1], 10), Digits(b[2], 10), Digits(b[3], 10)], '.')
  }

  lemma {:induction false} AllLeading(s: string)
    requires forall i :: 0 <= i < |s| ==> '0' <= s[i] <= '9'
    ensures LeadingDigits(s) == s
  {
    if s != [] {
      AllLeading(s[1..]);
    }
  }

  lemma DecimalDigit(c: char)
    requires 0 <= HexDigit(c) < 10
    ensures '0' <= c <= '9'
  {
  }

  lemma OctetRoundTrip(n: octet)
    ensures Octet(Digits(n, 10)) == Ok(n) && '.' !in Digits(n, 10)
  {
    var s := Digits(n, 10);
    forall i | 0 <= i < |s|
      ensures '0' <= s[i] <= '9'
    {
      DecimalDigit(s[i]);
    }
    AllLeading(s);
    DigitsValue(n, 10);
  }

  lemma QuadRoundTrip(b: seq<octet>)
    requires |b| == 4
    ensures ParseQuad(PrintQuad(b)) == Ok(b)
  {
    var fields := [Digits(b[0], 10), Digits(b[1], 10), Digits(b[2], 10), Digits(b[3], 10)];
    forall i | 0 <= i < 4
      ensures Octet(fields[i]) == Ok(b[i]) && '.' !in fields[i]
    {
      OctetRoundTrip(b[i]);
    }
    SplitJoin(fields, '.');
    assert b == [b[0], b[1], b[2], b[3]];
  }

  // --- the scan for the parts: the first loop of _parse_ipv6 ---

  /** `parts` holds where each group begins, or -1 where the double colon stands. */
  datatype Scan = Scan(parts: seq<int>, count: nat, found: bool, skip: bool, dotted: bool)

  function ScanChar(st: Scan, c: char, i: nat): Result<Scan> {
    if c == ':' then
      if i == 0 then Ok(st)
      else if st.found then Ok(st.(found := false))
      else Ok(st.(parts := st.parts + [-1], skip := true))
    else if c == '.' then Ok(st.(dotted := true))
    else if HexDigit(c) < 0 then Refused
    else if st.found then Ok(st)
    else Ok(st.(parts := st.parts + [i], count := st.count + 1, found := true))
  }

  function ScanFrom(s: string, i: nat, st: Scan): Result<Scan>
    requires i <= |s|
    decreases |s| - i
  {
    if i == |s| then Ok(st)
    else
      match ScanChar(st, s[i], i)
      case Refused => Refused
      case Ok(t) => ScanFrom(s, i + 1, t)
  }

  function NoParts(): Scan {
    Scan([], 0, false, false, false)
  }

  method ScanParts(s: string) returns (r: Result<Scan>)
    ensures r == ScanFrom(s, 0, NoParts())
  {
    var st := NoParts();
    var i := 0;
    while i < |s|
      invariant i <= |s|
      invariant ScanFrom(s, i, st) == ScanFrom(s, 0, NoParts())
    {
      var t := ScanChar(st, s[i], i);
      if t == Refused { return Refused; }
      st := t.value;
      i := i + 1;
    }
    return Ok(st);
  }

  // --- filling the groups: the second loop, with _parse_hex ---

  /** At most four characters, up to a colon. */
  function Run(s: string, i: nat, most: nat): string
    decreases most
  {
    if most == 0 || i >= |s| || s[i] == ':' then [] else [s[i]] + Run(s, i + 1, most - 1)
  }

  function GroupBytes(n: nat): seq<octet> {
    [n / 256 % 256, n % 256]
  }

  function Zeros(n: int): (z: seq<octet>)
    ensures |z| == if n > 0 then n else 0
  {
    seq(if n > 0 then n else 0, _ => 0)
  }

  /** How many groups the double colon leaves out, and one more. */
  function Extra(st: Scan): int {
    if st.skip then 8 - st.count else 0
  }

  function Prepend(first: seq<octet>, r: Result<seq<octet>>): Result<seq<octet>> {
    match r
    case Refused => Refused
    case Ok(rest) => Ok(first + rest)
  }

  lemma PrependNothing(r: Result<seq<octet>>)
    ensures Prepend([], r) == r
  {
    if r.Ok? { assert [] + r.value == r.value; }
  }

  lemma PrependTwice(a: seq<octet>, b: seq<octet>, r: Result<seq<octet>>)
    ensures Prepend(a, Prepend(b, r)) == Prepend(a + b, r)
  {
    if r.Ok? { assert a + (b + r.value) == (a + b) + r.value; }
  }

  function FillParts(s: string, parts: seq<int>, extra: int, dotted: bool): Result<seq<octet>>
    decreases |parts|
  {
    if parts == [] then Ok([])
    else if parts[0] >= 0 && dotted && |parts| == 1 then
      if parts[0] <= |s| then ParseQuad(s[parts[0]..]) else Refused
    else Prepend(PartBytes(s, parts[0], extra), FillParts(s, parts[1..], extra, dotted))
  }

  function PartBytes(s: string, part: int, extra: int): seq<octet> {
    if part < 0 then Zeros(2 * (extra - 1)) else GroupBytes(Value(Run(s, part, 4), 16, 0))
  }

  /** The sixteen bytes; a text that would write outside the eight groups is refused. */
  function Padded(b: seq<octet>): Result<seq<octet>> {
    if |b| > 16 then Refused else Ok(b + Zeros(16 - |b|))
  }

  /** The loop of `_parse_hex`. */
  method ParseHex(s: string, start: nat) returns (n: nat)
    ensures n == Value(Run(s, start, 4), 16, 0)
  {
    n := 0;
    var i := start;
    while i < start + 4
      invariant start <= i <= start + 4
      invariant Value(Run(s, i, start + 4 - i), 16, n) == Value(Run(s, start, 4), 16, 0)
    {
      if i >= |s| { break; }
      if s[i] == ':' { break; }
      var d := HexDigit(s[i]);
      assert Run(s, i, start + 4 - i)[1..] == Run(s, i + 1, start + 3 - i);
      n := n * 16 + if d >= 0 then d else 0;
      i := i + 1;
    }
  }

  /** The loop that fills the groups, part by part. */
  method FillGroups(s: string, st: Scan) returns (r: Result<seq<octet>>)
    ensures r == FillParts(s, st.parts, Extra(st), st.dotted)
  {
    var bytes: seq<octet> := [];
    var i := 0;
    ghost var all := FillParts(s, st.parts, Extra(st), st.dotted);
    PrependNothing(all);
    assert st.parts[0..] == st.parts;
    while i < |st.parts|
      invariant i <= |st.parts|
      invariant all == Prepend(bytes, FillParts(s, st.parts[i..], Extra(st), st.dotted))
    {
      var part := st.parts[i];
      assert st.parts[i..][1..] == st.parts[i + 1..] && st.parts[i..][0] == part;
      if part >= 0 && st.dotted && i == |st.parts| - 1 {
        if part > |s| { return Refused; }
        var quad := ParseQuad(s[part..]);
        if quad == Refused { return Refused; }
        return Ok(bytes + quad.value);
      }
      var group := Zeros(2 * (Extra(st) - 1));
      if part >= 0 {
        var n := ParseHex(s, part);
        group := GroupBytes(n);
      }
      PrependTwice(bytes, group, FillParts(s, st.parts[i + 1..], Extra(st), st.dotted));
      bytes := bytes + group;
      i := i + 1;
    }
    assert bytes + [] == bytes;
    return Ok(bytes);
  }

  function Whole(r: Result<seq<octet>>): Result<seq<octet>> {
    match r
    case Refused => Refused
    case Ok(b) => Padded(b)
  }

  /** `_parse_ipv6`: an unknown character leaves all groups 0. */
  function Parse6(s: string): Result<seq<octet>> {
    match ScanFrom(s, 0, NoParts())
    case Refused => Ok(Zeros(16))
    case Ok(st) =>
      if |st.parts| > 8 then Refused
      else Whole(FillParts(s, st.parts, Extra(st), st.dotted))
  }

  method ParseIpv6(s: string) returns (r: Result<seq<octet>>)
    ensures r == Parse6(s)
  {
    var scan := ScanParts(s);
    if scan == Refused { return Ok(Zeros(16)); }
    if |scan.value.parts| > 8 { return Refused; }
    var bytes := FillGroups(s, scan.value);
    if bytes == Refused { return Refused; }
    r := Padded(bytes.value);
  }

  // --- the same by fields ---

  /** The fields between the colons. */
  datatype Fields = Last(text: string) | More(text: string, rest: Fields)

  function Text(fs: Fields): string {
    match fs
    case Last(f) => f
    case More(f, rest) => f + [':'] + Text(rest)
  }

  /** A field: nothing, hexadecimal digits, or a dotted quad. */
  predicate FieldText(f: string) {
    f != [] ==> HexDigit(f[0]) >= 0 && f[0] != '.' && forall i :: 0 <= i < |f| ==> f[i] == '.' || HexDigit(f[i]) >= 0
  }

  predicate FieldTexts(fs: Fields) {
    FieldText(fs.text) && (fs.More? ==> FieldTexts(fs.rest))
  }

  function Enter(st: Scan, i: nat, dotted: bool): Scan {
    st.(parts := st.parts + [i], count := st.count + 1, found := true, dotted := st.dotted || dotted)
  }

  lemma {:induction false} ScanRest(s: string, i: nat, j: nat, st: Scan)
    requires i <= j <= |s| && st.found
    requires forall k :: i <= k < j ==> s[k] == '.' || HexDigit(s[k]) >= 0
    ensures ScanFrom(s, i, st) == ScanFrom(s, j, st.(dotted := st.dotted || '.' in s[i..j]))
    decreases j - i
  {
    if i < j {
      var t := st.(dotted := st.dotted || s[i] == '.');
      assert s[i] != ':';
      ScanRest(s, i + 1, j, t);
      assert s[i..j] == [s[i]] + s[i + 1..j];
    }
  }

  lemma ScanField(s: string, i: nat, j: nat, st: Scan)
    requires i < j <= |s| && !st.found && FieldText(s[i..j])
    ensures ScanFrom(s, i, st) == ScanFrom(s, j, Enter(st, i, '.' in s[i..j]))
  {
    var f := s[i..j];
    assert f[0] == s[i] && s[i] != ':';
    forall k | i <= k < j
      ensures s[k] == '.' || HexDigit(s[k]) >= 0
    {
      assert f[k - i] == s[k];
    }
    ScanRest(s, i + 1, j, Enter(st, i, false));
    assert s[i..j] == [s[i]] + s[i + 1..j];
  }

  /** The scan after one field and its colon. */
  function AfterField(st: Scan, f: string, off: nat): Scan {
    if f != [] then Enter(st, off, '.' in f).(found := false)
    else if off == 0 then st
    else st.(parts := st.parts + [-1], skip := true)
  }

  lemma ScanStep(s: string, off: nat, f: string, st: Scan)
    requires off + |f| < |s| && s[off..off + |f|] == f && s[off + |f|] == ':' && !st.found && FieldText(f)
    ensures ScanFrom(s, off, st) == ScanFrom(s, off + |f| + 1, AfterField(st, f, off))
  {
    if f != [] { ScanField(s, off, off + |f|, st); }
  }

  /** The scan of the fields that begin at `off`. */
  function ScanFields(st: Scan, fs: Fields, off: nat): Scan
    decreases fs
  {
    match fs
    case Last(f) => if f == [] then st else Enter(st, off, '.' in f)
    case More(f, rest) => ScanFields(AfterField(st, f, off), rest, off + |f| + 1)
  }

  lemma {:induction false} ScanIsByFields(before: string, fs: Fields, st: Scan)
    requires !st.found && FieldTexts(fs)
    ensures ScanFrom(before + Text(fs), |before|, st) == Ok(ScanFields(st, fs, |before|))
    decreases fs
  {
    var s, off, f := before + Text(fs), |before|, fs.text;
    if fs.Last? {
      assert s[off..off + |f|] == f;
      if f != [] { ScanField(s, off, off + |f|, st); }
    } else {
      var next := before + f + [':'];
      assert s == next + Text(fs.rest);
      assert s[off..off + |f|] == f && s[off + |f|] == ':';
      ScanStep(s, off, f, st);
      ScanIsByFields(next, fs.rest, AfterField(st, f, off));
      assert |next| == off + |f| + 1;
    }
  }

  /** Where the parts of the fields lie. */
  function PartsOf(fs: Fields, off: nat): seq<int> {
    match fs
    case Last(f) => if f == [] then [] else [off]
    case More(f, rest) =>
      (if f != [] then [off] else if off == 0 then [] else [-1]) + PartsOf(rest, off + |f| + 1)
  }

  /** How many fields are not empty. */
  function Count(fs: Fields): nat {
    (if fs.text == [] then 0 else 1) + if fs.Last? then 0 else Count(fs.rest)
  }

  /** Some field other than the last is empty, not counting one at the very front. */
  predicate Gaps(fs: Fields, off: nat) {
    fs.More? && ((fs.text == [] && off > 0) || Gaps(fs.rest, off + |fs.text| + 1))
  }

  predicate Dotted(fs: Fields) {
    '.' in fs.text || (fs.More? && Dotted(fs.rest))
  }

  lemma {:induction false} ScannedFields(st: Scan, fs: Fields, off: nat)
    ensures var t := ScanFields(st, fs, off);
            && t.parts == st.parts + PartsOf(fs, off)
            && t.count == st.count + Count(fs)
            && t.skip == (st.skip || Gaps(fs, off))
            && t.dotted == (st.dotted || Dotted(fs))
    decreases fs
  {
    if fs.More? {
      ScannedFields(AfterField(st, fs.text, off), fs.rest, off + |fs.text| + 1);
    }
  }

  /** The bytes of the fields; `front` says that nothing comes before them. */
  function FieldBytes(fs: Fields, front: bool, extra: int, dotted: bool): Result<seq<octet>> {
    match fs
    case Last(f) =>
      if dotted then ParseQuad(f) else if f == [] then Ok([]) else Ok(GroupBytes(Value(f, 16, 0)))
    case More(f, rest) =>
      var tail := FieldBytes(rest, false, extra, dotted);
      if f != [] then Prepend(GroupBytes(Value(f, 16, 0)), tail)
      else if front then tail
      else Prepend(Zeros(2 * (extra - 1)), tail)
  }

  /** Fields as the parser expects them: at most four digits, but for a dotted quad at the end. */
  predicate Proper(fs: Fields, dotted: bool) {
    && ':' !in fs.text
    && (fs.Last? ==> if dotted then fs.text != [] else |fs.text| <= 4)
    && (fs.More? ==> |fs.text| <= 4 && Proper(fs.rest, dotted))
  }

  lemma {:induction false} RunIsField(s: string, i: nat, f: string, most: nat)
    requires i + |f| <= |s| && s[i..i + |f|] == f && ':' !in f && |f| <= most
    requires i + |f| == |s| || s[i + |f|] == ':'
    ensures Run(s, i, most) == f
    decreases |f|
  {
    if f != [] {
      assert s[i] == f[0];
      assert s[i + 1..i + 1 + |f[1..]|] == f[1..];
      RunIsField(s, i + 1, f[1..], most - 1);
      assert [f[0]] + f[1..] == f;
    }
  }

  lemma {:induction false} SomePart(fs: Fields, off: nat, dotted: bool)
    requires Proper(fs, dotted)
    ensures dotted ==> |PartsOf(fs, off)| >= 1
    decreases fs
  {
  }

  lemma FillFirst(s: string, first: int, rest: seq<int>, extra: int, dotted: bool)
    requires dotted ==> |rest| >= 1
    ensures FillParts(s, [first] + rest, extra, dotted) ==
            Prepend(PartBytes(s, first, extra), FillParts(s, rest, extra, dotted))
  {
  }

  lemma PartsStep(fs: Fields, off: nat, next: nat)
    requires fs.More? && next == off + |fs.text| + 1
    ensures fs.text != [] ==> PartsOf(fs, off) == [off] + PartsOf(fs.rest, next)
    ensures fs.text == [] && off == 0 ==> PartsOf(fs, off) == PartsOf(fs.rest, next)
    ensures fs.text == [] && off > 0 ==> PartsOf(fs, off) == [-1] + PartsOf(fs.rest, next)
  {
  }

  lemma FillStep(s: string, off: nat, fs: Fields, next: nat, front: bool, extra: int, dotted: bool)
    requires (front <==> off == 0) && fs.More? && next == off + |fs.text| + 1
    requires (fs.text != [] ==> Run(s, off, 4) == fs.text) && (dotted ==> |PartsOf(fs.rest, next)| >= 1)
    requires FillParts(s, PartsOf(fs.rest, next), extra, dotted) == FieldBytes(fs.rest, false, extra, dotted)
    ensures FillParts(s, PartsOf(fs, off), extra, dotted) == FieldBytes(fs, front, extra, dotted)
  {
    PartsStep(fs, off, next);
    FillFirst(s, if fs.text == [] then -1 else off, PartsOf(fs.rest, next), extra, dotted);
  }

  lemma FillLast(s: string, off: nat, f: string, front: bool, extra: int, dotted: bool)
    requires Proper(Last(f), dotted) && f != [] && off + |f| == |s| && s[off..] == f
    ensures FillParts(s, [off], extra, dotted) == FieldBytes(Last(f), front, extra, dotted)
  {
    assert [off][1..] == [];
    if !dotted {
      assert s[off..off + |f|] == f;
      RunIsField(s, off, f, 4);
      assert GroupBytes(Value(f, 16, 0)) + [] == GroupBytes(Value(f, 16, 0));
    }
  }

  lemma FirstField(s: string, off: nat, fs: Fields)
    requires fs.More? && off <= |s| && s[off..] == Text(fs)
    ensures off + |fs.text| < |s| && s[off..off + |fs.text|] == fs.text && s[off + |fs.text|] == ':'
    ensures s[off + |fs.text| + 1..] == Text(fs.rest)
  {
  }

  lemma {:induction false} FillIsByFields(s: string, off: nat, fs: Fields, front: bool, extra: int, dotted: bool)
    requires Proper(fs, dotted) && off <= |s| && s[off..] == Text(fs) && (front <==> off == 0)
    ensures FillParts(s, PartsOf(fs, off), extra, dotted) == FieldBytes(fs, front, extra, dotted)
    decreases fs
  {
    if fs.Last? {
      assert off + |Text(fs)| == |s|;
      if fs.text != [] { FillLast(s, off, fs.text, front, extra, dotted); }
    } else {
      var next := off + |fs.text| + 1;
      FirstField(s, off, fs);
      SomePart(fs.rest, next, dotted);
      FillIsByFields(s, next, fs.rest, false, extra, dotted);
      RunIsField(s, off, fs.text, 4);
      FillStep(s, off, fs, next, front, extra, dotted);
    }
  }

  /** Scanning a text gives the parts of its fields. */
  lemma TextIsScanned(fs: Fields) returns (st: Scan)
    requires FieldTexts(fs)
    ensures ScanFrom(Text(fs), 0, NoParts()) == Ok(st) && st.parts == PartsOf(fs, 0) && st.dotted == Dotted(fs)
    ensures Extra(st) == if Gaps(fs, 0) then 8 - Count(fs) else 0
  {
    st := ScanFields(NoParts(), fs, 0);
    ScanIsByFields([], fs, NoParts());
    ScannedFields(NoParts(), fs, 0);
    assert [] + Text(fs) == Text(fs) && [] + PartsOf(fs, 0) == PartsOf(fs, 0);
  }

  /** Reading a text is reading its fields. */
  lemma ParseIsByFields(fs: Fields)
    requires Proper(fs, Dotted(fs)) && FieldTexts(fs) && |PartsOf(fs, 0)| <= 8
    ensures Parse6(Text(fs)) == Whole(FieldBytes(fs, true, if Gaps(fs, 0) then 8 - Count(fs) else 0, Dotted(fs)))
  {
    var st := TextIsScanned(fs);
    FillIsByFields(Text(fs), 0, fs, true, Extra(st), st.dotted);
  }

  // --- hexadecimal groups ---

  predicate HexField(f: string) {
    1 <= |f| <= 4 && forall i :: 0 <= i < |f| ==> HexDigit(f[i]) >= 0 && f[i] != '.' && f[i] != ':'
  }

  predicate HexFields(groups: seq<string>) {
    forall i :: 0 <= i < |groups| ==> HexField(groups[i])
  }

  function HexBytes(groups: seq<string>): (b: seq<octet>)
    ensures |b| == 2 * |groups|
  {
    if groups == [] then [] else GroupBytes(Value(groups[0], 16, 0)) + HexBytes(groups[1..])
  }

  lemma {:induction false} HexBytesConcat(a: seq<string>, b: seq<string>)
    ensures HexBytes(a + b) == HexBytes(a) + HexBytes(b)
  {
    if a == [] {
      assert a + b == b;
    } else {
      assert (a + b)[1..] == a[1..] + b;
      HexBytesConcat(a[1..], b);
    }
  }

  /** Groups in front of other fields. */
  function Before(groups: seq<string>, rest: Fields): Fields {
    if groups == [] then rest else More(groups[0], Before(groups[1..], rest))
  }

  lemma {:induction false} GroupsFirst(groups: seq<string>, rest: Fields, front: bool, extra: int, dotted: bool)
    requires HexFields(groups)
    ensures FieldBytes(Before(groups, rest), front, extra, dotted) ==
            Prepend(HexBytes(groups), FieldBytes(rest, front && groups == [], extra, dotted))
    decreases |groups|
  {
    if groups == [] {
      PrependNothing(FieldBytes(rest, front, extra, dotted));
    } else {
      GroupsFirst(groups[1..], rest, false, extra, dotted);
      PrependTwice(GroupBytes(Value(groups[0], 16, 0)), HexBytes(groups[1..]), FieldBytes(rest, false, extra, dotted));
    }
  }

  /** What the scan makes of groups in front of other fields. */
  lemma {:induction false} GroupsAreScanned(groups: seq<string>, rest: Fields, off: nat) returns (o: nat)
    requires HexFields(groups)
    ensures if groups == [] then o == off else o > 0
    ensures |PartsOf(Before(groups, rest), off)| == |groups| + |PartsOf(rest, o)|
    ensures Gaps(Before(groups, rest), off) == Gaps(rest, o)
    ensures Count(Before(groups, rest)) == |groups| + Count(rest)
    decreases |groups|
  {
    if groups == [] {
      o := off;
    } else {
      o := GroupsAreScanned(groups[1..], rest, off + |groups[0]| + 1);
    }
  }

  lemma {:induction false} GroupsAreProper(groups: seq<string>, rest: Fields, dotted: bool)
    requires HexFields(groups)
    ensures Proper(Before(groups, rest), dotted) == Proper(rest, dotted)
    ensures FieldTexts(Before(groups, rest)) == FieldTexts(rest)
    ensures Dotted(Before(groups, rest)) == Dotted(rest)
    decreases |groups|
  {
    if groups != [] {
      GroupsAreProper(groups[1..], rest, dotted);
      assert HexField(groups[0]);
    }
  }

  // --- the printed form ---

  function Group16(b: seq<octet>, i: nat): nat
    requires 2 * i + 1 < |b|
  {
    b[2 * i] as int * 256 + b[2 * i + 1]
  }

  function PrintGroups(b: seq<octet>, n: nat): (groups: seq<string>)
    requires 2 * n <= |b|
    ensures |groups| == n
  {
    seq(n, i requires 0 <= i < n => Digits(Group16(b, i), 16))
  }

  lemma PrintedGroup(n: nat)
    requires n < 0x10000
    ensures HexField(Digits(n, 16)) && Value(Digits(n, 16), 16, 0) == n
  {
    assert Power16(4) == 0x10000;
    HexLength(n, 4);
    DigitsValue(n, 16);
  }

  lemma {:induction false} PrintedBytes(b: seq<octet>, n: nat)
    requires 2 * n <= |b|
    ensures HexFields(PrintGroups(b, n)) && HexBytes(PrintGroups(b, n)) == b[..2 * n]
  {
    if n > 0 {
      PrintedBytes(b, n - 1);
      PrintedGroup(Group16(b, n - 1));
      assert PrintGroups(b, n) == PrintGroups(b, n - 1) + [Digits(Group16(b, n - 1), 16)];
      HexBytesConcat(PrintGroups(b, n - 1), [Digits(Group16(b, n - 1), 16)]);
      OneGroup(b[2 * n - 2], b[2 * n - 1]);
      assert HexBytes([Digits(Group16(b, n - 1), 16)]) == GroupBytes(Group16(b, n - 1)) + [];
      assert b[..2 * n] == b[..2 * (n - 1)] + [b[2 * n - 2], b[2 * n - 1]];
    }
  }

  lemma OneGroup(high: octet, low: octet)
    ensures GroupBytes(high as int * 256 + low) == [high, low]
  {
  }

  lemma {:induction false} JoinIsText(groups: seq<string>, last: string)
    ensures Join(groups + [last], ':') == Text(Before(groups, Last(last)))
    decreases |groups|
  {
    if groups != [] {
      assert (groups + [last])[1..] == groups[1..] + [last];
      JoinIsText(groups[1..], last);
    }
  }

  lemma OneField(f: string, front: bool, extra: int)
    requires f != []
    ensures FieldBytes(Last(f), front, extra, false) == Ok(HexBytes([f]))
  {
    assert [f][1..] == [];
    assert GroupBytes(Value(f, 16, 0)) + [] == GroupBytes(Value(f, 16, 0));
  }

  /** Eight groups of hexadecimal digits read as their bytes. */
  lemma GroupsParse(groups: seq<string>)
    requires HexFields(groups) && |groups| == 8
    ensures Parse6(Join(groups, ':')) == Ok(HexBytes(groups))
  {
    var a, last := groups[..7], groups[7];
    assert groups == a + [last] && HexField(last);
    JoinIsText(a, last);
    GroupsAreProper(a, Last(last), false);
    var o := GroupsAreScanned(a, Last(last), 0);
    ParseIsByFields(Before(a, Last(last)));
    GroupsFirst(a, Last(last), true, 0, false);
    OneField(last, false, 0);
    HexBytesConcat(a, [last]);
    assert HexBytes(groups) + Zeros(0) == HexBytes(groups);
  }

  // --- addresses ---

  /** An IPv4 address is kept as ::ffff:a.b.c.d. */
  predicate Mapped(b: seq<octet>)
    requires |b| == 16
  {
    (forall i :: 0 <= i < 10 ==> b[i] == 0) && b[10] == 255 && b[11] == 255
  }

  function MappedBytes(quad: seq<octet>): (b: seq<octet>)
    requires |quad| == 4
    ensures |b| == 16 && Mapped(b) && b[12..] == quad
  {
    Zeros(10) + [255, 255] + quad
  }

  function Print(b: seq<octet>): string
    requires |b| == 16
  {
    if Mapped(b) then PrintQuad(b[12..]) else Join(PrintGroups(b, 8), ':')
  }

  function Dots(s: string): nat {
    if s == [] then 0 else (if s[0] == '.' then 1 else 0) + Dots(s[1..])
  }

  datatype Address = Wildcard | Invalid | Valid(bytes: seq<octet>)

  /** The constructor from a text; `Refused` stands for what is not read within the bounds. */
  function Parse(s: string): Result<Address> {
    if s == "*" then Ok(Wildcard)
    else if ':' in s then
      match Parse6(s)
      case Refused => Refused
      case Ok(b) => Ok(Valid(b))
    else if Dots(s) == 3 then
      match ParseQuad(s)
      case Refused => Refused
      case Ok(q) => if |q| == 4 then Ok(Valid(MappedBytes(q))) else Refused
    else Ok(Invalid)
  }

  lemma {:induction false} DotsConcat(a: string, b: string)
    ensures Dots(a + b) == Dots(a) + Dots(b)
  {
    if a == [] {
      assert a + b == b;
    } else {
      assert (a + b)[1..] == a[1..] + b;
      DotsConcat(a[1..], b);
    }
  }

  lemma {:induction false} DotsNone(s: string)
    requires '.' !in s
    ensures Dots(s) == 0
  {
    if s != [] { DotsNone(s[1..]); }
  }

  lemma {:induction false} DotsOfJoin(fields: seq<string>)
    requires fields != [] && forall i :: 0 <= i < |fields| ==> '.' !in fields[i] && ':' !in fields[i]
    ensures Dots(Join(fields, '.')) == |fields| - 1 && ':' !in Join(fields, '.')
  {
    DotsNone(fields[0]);
    if |fields| > 1 {
      DotsOfJoin(fields[1..]);
      DotsConcat(fields[0] + ['.'], Join(fields[1..], '.'));
      DotsConcat(fields[0], ['.']);
      assert ['.'][1..] == [];
    }
  }

  lemma PrintedQuad(q: seq<octet>)
    requires |q| == 4
    ensures Dots(PrintQuad(q)) == 3 && ':' !in PrintQuad(q) && PrintQuad(q) != "*"
    ensures ParseQuad(PrintQuad(q)) == Ok(q)
  {
    var fields := [Digits(q[0], 10), Digits(q[1], 10), Digits(q[2], 10), Digits(q[3], 10)];
    DotsOfJoin(fields);
    QuadRoundTrip(q);
    assert Dots("*") == 0;
  }

  predicate DecimalField(f: string) {
    f != [] && forall i :: 0 <= i < |f| ==> '0' <= f[i] <= '9'
  }

  function ByteOf(f: string): octet {
    Value(f, 10, 0) % 256
  }

  lemma FieldIsRead(f: string)
    requires DecimalField(f)
    ensures Octet(f) == Ok(ByteOf(f)) && '.' !in f && ':' !in f && f[0] != '*'
  {
    AllLeading(f);
  }

  lemma FieldsAreRead(fields: seq<string>)
    requires |fields| == 4 && forall i :: 0 <= i < 4 ==> DecimalField(fields[i])
    ensures ParseQuad(Join(fields, '.')) == Ok([ByteOf(fields[0]), ByteOf(fields[1]), ByteOf(fields[2]), ByteOf(fields[3])])
  {
    forall i | 0 <= i < 4
      ensures Octet(fields[i]) == Ok(ByteOf(fields[i])) && '.' !in fields[i]
    {
      FieldIsRead(fields[i]);
    }
    SplitJoin(fields, '.');
  }

  lemma JoinBegins(fields: seq<string>, sep: char)
    requires fields != [] && fields[0] != []
    ensures Join(fields, sep) != [] && Join(fields, sep)[0] == fields[0][0]
  {
  }

  /** A text of decimal numbers between dots is an address exactly when there are four; each of them counts
      modulo 256. */
  lemma DottedIsAddressIff(fields: seq<string>)
    requires fields != [] && forall i :: 0 <= i < |fields| ==> DecimalField(fields[i])
    ensures Parse(Join(fields, '.')) ==
            if |fields| != 4 then Ok(Invalid)
            else Ok(Valid(MappedBytes([ByteOf(fields[0]), ByteOf(fields[1]), ByteOf(fields[2]), ByteOf(fields[3])])))
  {
    forall i | 0 <= i < |fields|
      ensures '.' !in fields[i] && ':' !in fields[i] && fields[i][0] != '*'
    {
      FieldIsRead(fields[i]);
    }
    DotsOfJoin(fields);
    JoinBegins(fields, '.');
    if |fields| == 4 { FieldsAreRead(fields); }
  }

  lemma ColonInJoin(fields: seq<string>)
    requires |fields| > 1
    ensures ':' in Join(fields, ':')
  {
  }

  /** Round trip: what is printed for any sixteen bytes is read back as the same sixteen bytes. */
  lemma PrintParses(b: seq<octet>)
    requires |b| == 16
    ensures Parse(Print(b)) == Ok(Valid(b))
  {
    if Mapped(b) {
      PrintedQuad(b[12..]);
      assert MappedBytes(b[12..]) == b;
    } else {
      var fields := PrintGroups(b, 8);
      PrintedBytes(b, 8);
      GroupsParse(fields);
      ColonInJoin(fields);
      assert b[..16] == b;
    }
  }

  /** What is printed: an IPv4 address as four decimal numbers between dots, any other as eight hexadecimal
      ones between colons, none of them shortened or filled up. */
  lemma PrintIsCanonical(b: seq<octet>)
    requires |b| == 16
    ensures if Mapped(b) then AreNumbers(Split(Print(b), '.'), 10, b[12..], 1)
            else AreNumbers(Split(Print(b), ':'), 16, b, 2)
  {
    if Mapped(b) {
      var q := b[12..];
      var f := [Digits(q[0], 10), Digits(q[1], 10), Digits(q[2], 10), Digits(q[3], 10)];
      SplitJoinDigits(f, '.');
      forall i | 0 <= i < 4
        ensures Canonical(f[i], 10) && Value(f[i], 10, 0) == q[i]
      {
        DigitsAreCanonical(q[i], 10);
        DigitsValue(q[i], 10);
      }
    } else {
      var f := PrintGroups(b, 8);
      SplitJoinDigits(f, ':');
      forall i | 0 <= i < 8
        ensures Canonical(f[i], 16) && Value(f[i], 16, 0) == Group16(b, i)
      {
        DigitsAreCanonical(Group16(b, i), 16);
        DigitsValue(Group16(b, i), 16);
      }
    }
  }

  /** The fields are canonical numbers, each the value of so many bytes. */
  ghost predicate AreNumbers(f: seq<string>, radix: nat, b: seq<octet>, width: nat) {
    && |b| == |f| * width
    && forall i :: 0 <= i < |f| ==>
         Canonical(f[i], radix)
         && (width == 1 ==> Value(f[i], radix, 0) == b[i])
         && (width == 2 ==> Value(f[i], radix, 0) == b[2 * i] as int * 256 + b[2 * i + 1])
  }

  lemma SplitJoinDigits(f: seq<string>, sep: char)
    requires f != [] && (sep == '.' || sep == ':')
    requires forall i, k :: 0 <= i < |f| && 0 <= k < |f[i]| ==> f[i][k] != ':' && f[i][k] != '.'
    ensures Split(Join(f, sep), sep) == f
  {
    SplitJoin(f, sep);
  }

  // --- the double colon ---

  /** A dotted quad as the last field. */
  predicate QuadField(q: string) {
    && FieldText(q) && '.' in q && ':' !in q
    && ParseQuad(q).Ok?
  }

  function Gap(front: seq<string>, rest: Fields): Fields {
    if front == [] then More([], More([], rest)) else More([], rest)
  }

  /** A spelling with a double colon between `front` and `back`. */
  function Short(front: seq<string>, back: seq<string>, quad: string): Fields {
    Before(front, Gap(front, Before(back, Last(quad))))
  }

  function ZeroGroups(n: nat): (z: seq<string>)
    ensures |z| == n
  {
    seq(n, _ => "0")
  }

  /** The same with the missing groups written out. */
  function Expanded(front: seq<string>, back: seq<string>, quad: string): Fields
    requires |front| + |back| <= 6
  {
    Before(front, Before(ZeroGroups(6 - |front| - |back|), Before(back, Last(quad))))
  }

  lemma {:induction false} ZeroGroupsAreZero(n: nat)
    ensures HexFields(ZeroGroups(n)) && HexBytes(ZeroGroups(n)) == Zeros(2 * n)
  {
    if n > 0 {
      ZeroGroupsAreZero(n - 1);
      assert ZeroGroups(n)[1..] == ZeroGroups(n - 1);
      assert "0"[1..] == [];
      assert Value("0", 16, 0) == 0;
      assert GroupBytes(0) + Zeros(2 * (n - 1)) == Zeros(2 * n);
    }
  }

  /** The bytes that both spellings stand for. */
  function Spelled(front: seq<string>, back: seq<string>, quad: string): Result<seq<octet>>
    requires |front| + |back| <= 6
  {
    Prepend(HexBytes(front),
            Prepend(Zeros(2 * (6 - |front| - |back|)), Prepend(HexBytes(back), ParseQuad(quad))))
  }

  lemma SpelledIsWhole(front: seq<string>, back: seq<string>, quad: string)
    requires |front| + |back| <= 6 && QuadField(quad)
    ensures Spelled(front, back, quad).Ok? && Whole(Spelled(front, back, quad)) == Spelled(front, back, quad)
  {
    var b := Spelled(front, back, quad).value;
    assert |b| == 16 && b + Zeros(0) == b;
  }

  lemma BackBytes(back: seq<string>, quad: string, first: bool, extra: int)
    requires HexFields(back)
    ensures FieldBytes(Before(back, Last(quad)), first, extra, true) == Prepend(HexBytes(back), ParseQuad(quad))
  {
    GroupsFirst(back, Last(quad), first, extra, true);
  }

  lemma GapBytes(front: seq<string>, rest: Fields, missing: nat)
    ensures FieldBytes(Gap(front, rest), front == [], missing + 1, true) ==
            Prepend(Zeros(2 * missing), FieldBytes(rest, false, missing + 1, true))
  {
  }

  lemma ShortBytes(front: seq<string>, back: seq<string>, quad: string, missing: nat)
    requires HexFields(front) && HexFields(back) && missing == 6 - |front| - |back|
    ensures FieldBytes(Short(front, back, quad), true, missing + 1, true) == Spelled(front, back, quad)
  {
    var rest := Before(back, Last(quad));
    GroupsFirst(front, Gap(front, rest), true, missing + 1, true);
    GapBytes(front, rest, missing);
    BackBytes(back, quad, false, missing + 1);
  }

  lemma ExpandedBytes(front: seq<string>, back: seq<string>, quad: string)
    requires HexFields(front) && HexFields(back) && |front| + |back| <= 6
    ensures FieldBytes(Expanded(front, back, quad), true, 0, true) == Spelled(front, back, quad)
  {
    var zeros := ZeroGroups(6 - |front| - |back|);
    ZeroGroupsAreZero(|zeros|);
    BackBytes(back, quad, front == [] && zeros == [], 0);
    GroupsFirst(zeros, Before(back, Last(quad)), front == [], 0, true);
    GroupsFirst(front, Before(zeros, Before(back, Last(quad))), true, 0, true);
  }

  lemma ShortIsProper(front: seq<string>, back: seq<string>, quad: string)
    requires HexFields(front) && HexFields(back) && QuadField(quad)
    ensures var f := Short(front, back, quad);
            && Proper(f, true) && FieldTexts(f) && Dotted(f)
            && |PartsOf(f, 0)| == |front| + |back| + 2 && Gaps(f, 0) && Count(f) == |front| + |back| + 1
  {
    var rest := Before(back, Last(quad));
    GroupsAreProper(back, Last(quad), true);
    GroupsAreProper(front, Gap(front, rest), true);
    var o := GroupsAreScanned(front, Gap(front, rest), 0);
    var p := GroupsAreScanned(back, Last(quad), if front == [] then 2 else o + 1);
  }

  lemma ExpandedIsProper(front: seq<string>, back: seq<string>, quad: string)
    requires HexFields(front) && HexFields(back) && QuadField(quad) && |front| + |back| <= 6
    ensures var f := Expanded(front, back, quad);
            Proper(f, true) && FieldTexts(f) && Dotted(f) && |PartsOf(f, 0)| == 7 && !Gaps(f, 0)
  {
    var zeros, rest := ZeroGroups(6 - |front| - |back|), Before(back, Last(quad));
    ZeroGroupsAreZero(|zeros|);
    GroupsAreProper(back, Last(quad), true);
    GroupsAreProper(zeros, rest, true);
    GroupsAreProper(front, Before(zeros, rest), true);
    var o := GroupsAreScanned(front, Before(zeros, rest), 0);
    var p := GroupsAreScanned(zeros, rest, o);
    var q := GroupsAreScanned(back, Last(quad), p);
  }

  /** A spelling with a double colon that ends in a dotted quad is read like the spelling with the
      missing groups written out. */
  lemma GapParsesAsExpanded(front: seq<string>, back: seq<string>, quad: string)
    requires HexFields(front) && HexFields(back) && QuadField(quad) && |front| + |back| <= 6
    ensures Parse6(Text(Short(front, back, quad))) == Parse6(Text(Expanded(front, back, quad)))
    ensures Parse6(Text(Short(front, back, quad))) == Spelled(front, back, quad) && Spelled(front, back, quad).Ok?
  {
    ShortIsProper(front, back, quad);
    ParseIsByFields(Short(front, back, quad));
    ShortBytes(front, back, quad, 6 - |front| - |back|);
    ExpandedIsProper(front, back, quad);
    ParseIsByFields(Expanded(front, back, quad));
    ExpandedBytes(front, back, quad);
    SpelledIsWhole(front, back, quad);
  }

  // --- the double colon without a dotted quad ---

  /** The groups behind the double colon. */
  function Tail(back: seq<string>): Fields {
    if back == [] then Last([]) else Before(back[..|back| - 1], Last(back[|back| - 1]))
  }

  lemma TailBytes(back: seq<string>, extra: int)
    requires HexFields(back)
    ensures FieldBytes(Tail(back), false, extra, false) == Ok(HexBytes(back))
  {
    if back != [] {
      var a, last := back[..|back| - 1], back[|back| - 1];
      assert HexField(last) && back == a + [last];
      GroupsFirst(a, Last(last), false, extra, false);
      OneField(last, false, extra);
      HexBytesConcat(a, [last]);
    }
  }

  lemma TailIsProper(back: seq<string>, off: nat)
    requires HexFields(back)
    ensures Proper(Tail(back), false) && FieldTexts(Tail(back)) && !Dotted(Tail(back))
    ensures |PartsOf(Tail(back), off)| == |back| && !Gaps(Tail(back), off) && Count(Tail(back)) == |back|
  {
    if back != [] {
      var a, last := back[..|back| - 1], back[|back| - 1];
      assert HexField(last);
      GroupsAreProper(a, Last(last), false);
      var o := GroupsAreScanned(a, Last(last), off);
    }
  }

  function HexGap(front: seq<string>, back: seq<string>): Fields {
    Before(front, Gap(front, Tail(back)))
  }

  lemma HexGapIsProper(front: seq<string>, back: seq<string>)
    requires HexFields(front) && HexFields(back)
    ensures var f := HexGap(front, back);
            && Proper(f, false) && FieldTexts(f) && !Dotted(f)
            && |PartsOf(f, 0)| == |front| + |back| + 1 && Gaps(f, 0) && Count(f) == |front| + |back|
  {
    var rest := Tail(back);
    GroupsAreProper(front, Gap(front, rest), false);
    var o := GroupsAreScanned(front, Gap(front, rest), 0);
    TailIsProper(back, if front == [] then 2 else o + 1);
  }

  lemma HexGapFields(front: seq<string>, back: seq<string>, missing: nat)
    requires HexFields(front) && HexFields(back)
    ensures FieldBytes(HexGap(front, back), true, missing + 1, false) ==
            Prepend(HexBytes(front), Prepend(Zeros(2 * missing), Ok(HexBytes(back))))
  {
    GroupsFirst(front, Gap(front, Tail(back)), true, missing + 1, false);
    TailBytes(back, missing + 1);
  }

  lemma HexGapIsRead(front: seq<string>, back: seq<string>, missing: nat)
    requires HexFields(front) && HexFields(back) && missing == 7 - |front| - |back|
    ensures Parse6(Text(HexGap(front, back))) == Whole(FieldBytes(HexGap(front, back), true, missing + 1, false))
  {
    HexGapIsProper(front, back);
    ParseIsByFields(HexGap(front, back));
  }

  /** What the parser makes of such a spelling: the double colon stands for one group too few, and the
      last group is left 0. */
  lemma HexGapBytes(front: seq<string>, back: seq<string>)
    requires HexFields(front) && HexFields(back) && |front| + |back| <= 7
    ensures Parse6(Text(HexGap(front, back))) ==
            Ok(HexBytes(front) + Zeros(2 * (7 - |front| - |back|)) + HexBytes(back) + Zeros(2))
  {
    var missing := 7 - |front| - |back|;
    HexGapIsRead(front, back, missing);
    HexGapFields(front, back, missing);
    HexJoined(HexBytes(front), Zeros(2 * missing), HexBytes(back));
  }

  lemma HexJoined(a: seq<octet>, z: seq<octet>, b: seq<octet>)
    requires |a| + |z| + |b| == 14
    ensures Whole(Prepend(a, Prepend(z, Ok(b)))) == Ok(a + z + b + Zeros(2))
  {
    assert a + (z + b) == a + z + b;
  }

  lemma {:induction false} ShiftedIsZero(b: seq<octet>)
    requires b + [0, 0] == [0, 0] + b
    ensures forall i :: 0 <= i < |b| ==> b[i] == 0
  {
    if |b| == 1 {
      assert (b + [0, 0])[0] == ([0, 0] + b)[0];
    } else if |b| > 1 {
      assert (b + [0, 0])[0] == 0 && (b + [0, 0])[1] == 0;
      var c := b[2..];
      assert c + [0, 0] == (b + [0, 0])[2..] && ([0, 0] + b)[2..] == b;
      assert b == [0, 0] + c;
      ShiftedIsZero(c);
    }
  }

  /** What a value of at most four digits can be when `k` of them are still to come. */
  function Bound(k: nat): nat
    requires k <= 4
    decreases 4 - k
  {
    if k == 4 then 1 else 16 * Bound(k + 1)
  }

  lemma {:induction false} HexValueIsSmall(f: string, acc: nat, k: nat)
    requires |f| <= k <= 4 && acc < Bound(k)
    ensures Value(f, 16, acc) < 0x10000
    decreases k
  {
    assert Bound(4) == 1 && Bound(3) == 16 && Bound(2) == 0x100 && Bound(1) == 0x1000 && Bound(0) == 0x10000;
    if f != [] { HexValueIsSmall(f[1..], acc * 16 + if HexDigit(f[0]) >= 0 then HexDigit(f[0]) else 0, k - 1); }
  }

  lemma GroupIsZero(f: string)
    requires HexField(f)
    ensures GroupBytes(Value(f, 16, 0)) == [0, 0] <==> Value(f, 16, 0) == 0
  {
    HexValueIsSmall(f, 0, 4);
  }

  /** Every group has value 0. */
  predicate AllZero(groups: seq<string>) {
    forall i :: 0 <= i < |groups| ==> Value(groups[i], 16, 0) == 0
  }

  lemma {:induction false} ZeroBytesIff(groups: seq<string>)
    requires HexFields(groups)
    ensures (forall i :: 0 <= i < |HexBytes(groups)| ==> HexBytes(groups)[i] == 0) <==> AllZero(groups)
  {
    if groups != [] {
      GroupIsZero(groups[0]);
      ZeroBytesIff(groups[1..]);
      var b, g := HexBytes(groups), GroupBytes(Value(groups[0], 16, 0));
      assert b[..2] == g && b[2..] == HexBytes(groups[1..]);
      assert forall i :: 0 <= i < |groups[1..]| ==> groups[1..][i] == groups[i + 1];
      assert forall i :: 1 <= i < |groups| ==> groups[i] == groups[1..][i - 1];
      assert forall i :: 2 <= i < |b| ==> b[i] == b[2..][i - 2];
      assert forall i :: 0 <= i < |b[2..]| ==> b[2..][i] == b[i + 2];
    }
  }

  lemma ShiftIsRightIff(a: seq<octet>, z: seq<octet>, b: seq<octet>)
    requires forall i :: 0 <= i < |z| ==> z[i] == 0
    ensures a + z + b + [0, 0] == a + z + [0, 0] + b <==> forall i :: 0 <= i < |b| ==> b[i] == 0
  {
    var l, r := a + z + b + [0, 0], a + z + [0, 0] + b;
    assert l == (a + z) + (b + [0, 0]) && r == (a + z) + ([0, 0] + b);
    assert l[|a + z|..] == b + [0, 0] && r[|a + z|..] == [0, 0] + b;
    if l == r { ShiftedIsZero(b); }
    if forall i :: 0 <= i < |b| ==> b[i] == 0 { assert b + [0, 0] == [0, 0] + b; }
  }

  /** A spelling with a double colon and no dotted quad is read like the spelling with the missing groups
      written out exactly when every group behind the double colon has value 0. */
  lemma HexGapIsRightIff(front: seq<string>, back: seq<string>)
    requires HexFields(front) && HexFields(back) && |front| + |back| <= 7
    ensures Parse6(Text(HexGap(front, back))) ==
              Parse6(Join(front + ZeroGroups(8 - |front| - |back|) + back, ':')) <==>
            AllZero(back)
  {
    var zeros := ZeroGroups(8 - |front| - |back|);
    HexGapBytes(front, back);
    ZeroGroupsAreZero(|zeros|);
    GroupsParse(front + zeros + back);
    HexBytesConcat(front + zeros, back);
    HexBytesConcat(front, zeros);
    var z := Zeros(2 * (7 - |front| - |back|));
    assert Zeros(2) == [0, 0] && Zeros(2 * |zeros|) == z + [0, 0];
    assert HexBytes(front) + (z + [0, 0]) == HexBytes(front) + z + [0, 0];
    ShiftIsRightIff(HexBytes(front), z, HexBytes(back));
    ZeroBytesIff(back);
  }

  /** ::1 is read as an address whose last bytes are 0 1 0 0 rather than 0 0 0 1. */
  lemma GapBeforeDigitsIsShort()
    ensures Parse6("::1") == Ok(Zeros(12) + [0, 1] + [0, 0])
  {
    assert HexGap([], ["1"]) == More([], More([], Last("1")));
    assert Text(HexGap([], ["1"])) == "::1";
    assert Value("1", 16, 0) == 1 by { assert "1"[1..] == []; }
    assert HexBytes(["1"]) == [0, 1] by { assert ["1"][1..] == []; }
    assert HexField("1");
    HexGapBytes([], ["1"]);
    assert HexBytes([]) + Zeros(12) == Zeros(12) && Zeros(2) == [0, 0];
  }
}
