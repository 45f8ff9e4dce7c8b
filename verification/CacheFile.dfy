/**
  The text format of the replay cache file (crates/fwknox-replay/src/persist.rs): a comment
  line, then one `<32 hex digits> <decimal seconds>` line per entry. Nibble shifts and masks
  are written as division and remainder by 16.
 */
module CacheFile {
  import opened Bytes
  import opened Options
  import opened ReplayCaches

  const U64_MAX: nat := 0xFFFF_FFFF_FFFF_FFFF

  datatype LineError = MissingTimestamp | NonceNotHex | TimestampNotU64
  datatype ReadResult = Loaded(entries: Entries) | InvalidFormat(line: nat, error: LineError)

  // ----- hexadecimal -----

  function NibbleToHex(n: nat): (c: char)
    requires n < 16
  {
    if n < 10 then '0' + n as char else 'a' + (n - 10) as char
  }

  function HexToNibble(c: char): (n: Option<nat>)
    ensures n.Some? ==> n.value < 16
  {
    if '0' <= c <= '9' then Some((c - '0') as int)
    else if 'a' <= c <= 'f' then Some((c - 'a') as int + 10)
    else if 'A' <= c <= 'F' then Some((c - 'A') as int + 10)
    else None
  }

  function Lower(c: char): char {
    if 'A' <= c <= 'Z' then 'a' + (c - 'A') else c
  }

  function LowerAll(s: string): (r: string)
    ensures |r| == |s|
  {
    if s == [] then [] else LowerAll(s[..|s| - 1]) + [Lower(s[|s| - 1])]
  }

  function EncodeHex(bs: seq<byte>): (s: string)
    ensures |s| == 2 * |bs|
    ensures forall i | 0 <= i < |s| :: HexToNibble(s[i]).Some?
  {
    if bs == [] then []
    else
      var b := bs[|bs| - 1];
      EncodeHex(bs[..|bs| - 1]) + [NibbleToHex(b / 16), NibbleToHex(b % 16)]
  }

  /** The bytes spelled by an even number of hex digits. */
  function DecodeHex(s: string): (bs: seq<byte>)
    requires |s| % 2 == 0 && forall i | 0 <= i < |s| :: HexToNibble(s[i]).Some?
    ensures |bs| == |s| / 2
  {
    if s == [] then []
    else
      var n := |s|;
      DecodeHex(s[..n - 2]) + [HexToNibble(s[n - 2]).value * 16 + HexToNibble(s[n - 1]).value]
  }

  function ParseNonce(s: string): (n: Option<Nonce>) {
    if |s| == 32 && forall i | 0 <= i < |s| :: HexToNibble(s[i]).Some? then Some(DecodeHex(s)) else None
  }

  method EncodeNonceHex(nonce: Nonce) returns (s: string)
    ensures s == EncodeHex(nonce)
  {
    s := [];
    for i := 0 to 16
      invariant s == EncodeHex(nonce[..i])
    {
      assert nonce[..i + 1][..i] == nonce[..i];
      s := s + [NibbleToHex(nonce[i] / 16), NibbleToHex(nonce[i] % 16)];
    }
    assert nonce[..16] == nonce;
  }

  method ParseNonceHex(s: string) returns (r: Option<Nonce>)
    ensures r == ParseNonce(s)
  {
    if |s| != 32 || exists i | 0 <= i < |s| :: HexToNibble(s[i]).None? {
      return None;
    }
    var out: seq<byte> := [];
    for i := 0 to 16
      invariant out == DecodeHex(s[..2 * i])
    {
      var hi, lo := HexToNibble(s[2 * i]), HexToNibble(s[2 * i + 1]);
      assert s[..2 * (i + 1)][..2 * i] == s[..2 * i];
      out := out + [hi.value * 16 + lo.value];
    }
    assert s[..32] == s;
    r := Some(out);
  }

  /** One more byte: the last step of encoding and of decoding. */
  lemma HexPair(bs: seq<byte>, b: byte, s: string, hi: char, lo: char)
    requires |s| % 2 == 0 && HexToNibble(hi).Some? && HexToNibble(lo).Some?
    requires forall i | 0 <= i < |s| :: HexToNibble(s[i]).Some?
    ensures EncodeHex(bs + [b]) == EncodeHex(bs) + [NibbleToHex(b / 16), NibbleToHex(b % 16)]
    ensures DecodeHex(s + [hi, lo]) == DecodeHex(s) + [HexToNibble(hi).value * 16 + HexToNibble(lo).value]
  {
    hide NibbleToHex, HexToNibble;
    assert (bs + [b])[..|bs|] == bs;
    assert (s + [hi, lo])[..|s|] == s;
  }

  lemma {:induction false} DecodeEncodes(bs: seq<byte>)
    ensures DecodeHex(EncodeHex(bs)) == bs
  {
    hide NibbleToHex, HexToNibble, EncodeHex, DecodeHex;
    if bs == [] {
      DecodeEncodesNothing();
    } else {
      var init, b := bs[..|bs| - 1], bs[|bs| - 1];
      DecodeEncodes(init);
      DecodeEncodesByte(init, b);
      assert bs == init + [b];
    }
  }

  lemma DecodeEncodesNothing()
    ensures DecodeHex(EncodeHex([])) == []
  {}

  lemma DecodeEncodesByte(bs: seq<byte>, b: byte)
    requires DecodeHex(EncodeHex(bs)) == bs
    ensures DecodeHex(EncodeHex(bs + [b])) == bs + [b]
  {
    hide NibbleToHex, HexToNibble, EncodeHex, DecodeHex;
    NibblesOf(b);
    HexPair(bs, b, EncodeHex(bs), NibbleToHex(b / 16), NibbleToHex(b % 16));
  }

  lemma NibblesOf(b: byte)
    ensures HexToNibble(NibbleToHex(b / 16)) == Some(b / 16)
    ensures HexToNibble(NibbleToHex(b % 16)) == Some(b % 16)
  {}

  lemma NibbleLower(c: char)
    requires HexToNibble(c).Some?
    ensures NibbleToHex(HexToNibble(c).value) == Lower(c)
  {}

  lemma {:induction false} LowerPair(s: string, a: char, b: char)
    ensures LowerAll(s + [a, b]) == LowerAll(s) + [Lower(a), Lower(b)]
  {
    var t := s + [a];
    assert (s + [a, b])[..|s| + 1] == t && t[..|s|] == s;
    assert LowerAll(t) == LowerAll(s) + [Lower(a)];
  }

  /** Re-encoding accepted hex digits gives their lower-case form. */
  lemma {:induction false} EncodeDecodes(s: string)
    requires |s| % 2 == 0 && forall i | 0 <= i < |s| :: HexToNibble(s[i]).Some?
    ensures EncodeHex(DecodeHex(s)) == LowerAll(s)
  {
    hide NibbleToHex, HexToNibble, Lower;
    if s != [] {
      var n := |s|;
      var init, hi, lo := s[..n - 2], HexToNibble(s[n - 2]).value, HexToNibble(s[n - 1]).value;
      assert s == init + [s[n - 2], s[n - 1]];
      EncodeDecodes(init);
      HexPair(DecodeHex(init), hi * 16 + lo, init, s[n - 2], s[n - 1]);
      assert EncodeHex(DecodeHex(s)) == EncodeHex(DecodeHex(init)) + [NibbleToHex(hi), NibbleToHex(lo)];
      NibbleLower(s[n - 2]);
      NibbleLower(s[n - 1]);
      LowerPair(init, s[n - 2], s[n - 1]);
    }
  }

  /** The nonce field: parsing inverts encoding, and encoding inverts parsing up to letter case. */
  lemma NonceFieldRoundTrip(n: Nonce, s: string)
    ensures ParseNonce(EncodeHex(n)) == Some(n)
    ensures ParseNonce(s).Some? ==> EncodeHex(ParseNonce(s).value) == LowerAll(s)
  {
    DecodeEncodes(n);
    if ParseNonce(s).Some? { EncodeDecodes(s); }
  }

  // ----- decimal -----

  function Digit(n: nat): char
    requires n < 10
  {
    '0' + n as char
  }

  function ShowNat(n: nat): (s: string)
    ensures s != [] && forall i | 0 <= i < |s| :: '0' <= s[i] <= '9'
  {
    if n < 10 then [Digit(n)] else ShowNat(n / 10) + [Digit(n % 10)]
  }

  /** Digits accumulated with checked 64-bit arithmetic. */
  function ParseDigits(s: string): (n: Option<nat>)
    ensures n.Some? ==> n.value <= U64_MAX
  {
    if s == [] then Some(0)
    else
      var c := s[|s| - 1];
      var hi := ParseDigits(s[..|s| - 1]);
      if hi.None? || !('0' <= c <= '9') then None
      else
        var v := hi.value * 10 + (c - '0') as int;
        if v <= U64_MAX then Some(v) else None
  }

  /** `str::parse::<u64>`: an optional plus sign, then digits. */
  function ParseU64(s: string): (n: Option<nat>) {
    if s == [] || s == "+" then None
    else if s[0] == '+' then ParseDigits(s[1..])
    else ParseDigits(s)
  }

  lemma {:induction false} ShowParses(n: nat)
    requires n <= U64_MAX
    ensures ParseDigits(ShowNat(n)) == Some(n) && ParseU64(ShowNat(n)) == Some(n)
  {
    var s := ShowNat(n);
    if n < 10 {
      assert s[..0] == [];
    } else {
      ShowParses(n / 10);
      assert s[..|s| - 1] == ShowNat(n / 10);
    }
  }

  predicate AllDigits(s: string) {
    forall i | 0 <= i < |s| :: '0' <= s[i] <= '9'
  }

  lemma {:induction false} ParsedAreDigits(s: string)
    ensures ParseDigits(s).Some? ==> AllDigits(s)
  {
    if s != [] { ParsedAreDigits(s[..|s| - 1]); }
  }

  function Pow10(k: nat): nat {
    if k == 0 then 1 else 10 * Pow10(k - 1)
  }

  /** The number a digit string denotes, each digit weighted by its place. */
  function Value(s: string): nat
    requires AllDigits(s)
  {
    if s == [] then 0 else (s[0] - '0') as int * Pow10(|s| - 1) + Value(s[1..])
  }

  lemma TenTimes(d: nat, w: nat, v: nat)
    ensures d * (10 * w) + v * 10 == (d * w + v) * 10
  {}

  lemma {:induction false} ValueAppend(s: string, c: char)
    requires AllDigits(s) && '0' <= c <= '9'
    ensures Value(s + [c]) == Value(s) * 10 + (c - '0') as int
  {
    var t := s + [c];
    if s == [] {
      assert t[1..] == [];
    } else {
      assert t[1..] == s[1..] + [c];
      ValueAppend(s[1..], c);
      TenTimes((s[0] - '0') as int, Pow10(|s| - 1), Value(s[1..]));
    }
  }

  /** The checked accumulation gives the value, and overflows only if the value does. */
  lemma {:induction false} DigitsParse(s: string)
    requires AllDigits(s)
    ensures ParseDigits(s) == if Value(s) <= U64_MAX then Some(Value(s)) else None
  {
    hide Value;
    if s == [] {
      NoDigits();
    } else {
      var init, c := s[..|s| - 1], s[|s| - 1];
      DigitsParse(init);
      ValueAppend(init, c);
      assert s == init + [c];
    }
  }

  lemma NoDigits()
    ensures Value([]) == 0
  {}

  /** What follows an optional plus sign. */
  function Unsigned(s: string): string {
    if s != [] && s[0] == '+' then s[1..] else s
  }

  /**
    A stamp is digits, at least one and with any leading zeros, after an optional plus sign; exactly
    those whose value fits 64 bits are accepted, as that value.
   */
  lemma StampSyntax(s: string)
    ensures ParseU64(s).Some? <==>
              Unsigned(s) != [] && AllDigits(Unsigned(s)) && Value(Unsigned(s)) <= U64_MAX
    ensures ParseU64(s).Some? ==> AllDigits(Unsigned(s)) && ParseU64(s).value == Value(Unsigned(s))
  {
    hide ParseDigits, Value;
    ParsedAreDigits(Unsigned(s));
    if AllDigits(Unsigned(s)) { DigitsParse(Unsigned(s)); }
  }

  // ----- lines and fields -----

  /** Unicode `White_Space`. */
  predicate IsWhitespace(c: char) {
    || '\U{9}' <= c <= '\U{D}' || c == ' ' || c == '\U{85}' || c == '\U{A0}' || c == '\U{1680}'
    || '\U{2000}' <= c <= '\U{200A}' || c == '\U{2028}' || c == '\U{2029}' || c == '\U{202F}'
    || c == '\U{205F}' || c == '\U{3000}'
  }

  function SkipSpace(s: string): (r: string)
    ensures |r| <= |s|
  {
    if s == [] || !IsWhitespace(s[0]) then s else SkipSpace(s[1..])
  }

  function TrimEnd(s: string): (r: string) {
    if s == [] || !IsWhitespace(s[|s| - 1]) then s else TrimEnd(s[..|s| - 1])
  }

  function Trim(s: string): string {
    TrimEnd(SkipSpace(s))
  }

  function FieldLength(s: string): (n: nat)
    ensures n <= |s|
  {
    if s == [] || IsWhitespace(s[0]) then 0 else 1 + FieldLength(s[1..])
  }

  /** The next field and what follows it, as `split_whitespace` yields them. */
  function NextField(s: string): (r: Option<(string, string)>) {
    var t := SkipSpace(s);
    if t == [] then None else Some((t[..FieldLength(t)], t[FieldLength(t)..]))
  }

  datatype Line = Ignored | Entry(nonce: Nonce, stamp: nat) | Bad(error: LineError)

  function ParseLine(raw: string): (r: Line) {
    var line := Trim(raw);
    if line == [] || line[0] == '#' then Ignored
    else
      match NextField(line)
      case None => Ignored    // a trimmed nonempty line has a first field
      case Some((nonceHex, rest)) =>
        match NextField(rest)
        case None => Bad(MissingTimestamp)
        case Some((stampText, _)) =>
          var nonce, stamp := ParseNonce(nonceHex), ParseU64(stampText);
          if nonce.None? then Bad(NonceNotHex)
          else if stamp.None? then Bad(TimestampNotU64)
          else Entry(nonce.value, stamp.value)
  }

  function StripCr(s: string): string {
    if s != [] && s[|s| - 1] == '\r' then s[..|s| - 1] else s
  }

  function LineLength(text: string): (n: nat)
    ensures n <= |text|
    ensures n < |text| ==> text[n] == '\n'
  {
    if text == [] || text[0] == '\n' then 0 else 1 + LineLength(text[1..])
  }

  /** `str::lines`: newline-terminated lines without their `\n` or `\r\n`; a last line may lack it. */
  function Lines(text: string): (ls: seq<string>) {
    if text == [] then []
    else
      var n := LineLength(text);
      if n == |text| then [text] else [StripCr(text[..n])] + Lines(text[n + 1..])
  }

  /** Later lines win; the first bad line is an error. */
  function ReadLines(ls: seq<string>): (r: ReadResult) {
    if ls == [] then Loaded(map[])
    else
      var before := ReadLines(ls[..|ls| - 1]);
      if before.InvalidFormat? then before
      else
        match ParseLine(ls[|ls| - 1])
        case Ignored => before
        case Entry(n, t) => Loaded(before.entries[n := t])
        case Bad(e) => InvalidFormat(|ls|, e)
  }

  /** `read_cache_file`; a missing file reads as empty. */
  method ReadCacheFile(file: Option<string>) returns (r: ReadResult)
    ensures r == if file.None? then Loaded(map[]) else ReadLines(Lines(file.value))
  {
    hide ParseLine, Lines;
    if file.None? {
      return Loaded(map[]);
    }
    var ls := Lines(file.value);
    var entries: Entries := map[];
    for i := 0 to |ls|
      invariant ReadLines(ls[..i]) == Loaded(entries)
    {
      assert ls[..i + 1][..i] == ls[..i];
      match ParseLine(ls[i])
      case Ignored =>
      case Entry(n, t) => entries := entries[n := t];
      case Bad(e) =>
        BadLineStops(ls, i);
        return InvalidFormat(i + 1, e);
    }
    assert ls[..|ls|] == ls;
    r := Loaded(entries);
  }

  /** The lines after the first bad one are never looked at. */
  lemma {:induction false} BadLineStops(ls: seq<string>, i: nat)
    requires i < |ls| && ReadLines(ls[..i]).Loaded? && ParseLine(ls[i]).Bad?
    ensures ReadLines(ls) == InvalidFormat(i + 1, ParseLine(ls[i]).error)
  {
    var init := ls[..|ls| - 1];
    if i < |init| {
      assert init[..i] == ls[..i] && init[i] == ls[i];
      BadLineStops(init, i);
    }
  }

  /** Line `i` is the last one with nonce `n`, and its stamp is `t`. */
  ghost predicate LastEntry(ls: seq<string>, i: nat, n: Nonce, t: nat) {
    && i < |ls| && ParseLine(ls[i]) == Entry(n, t)
    && forall j | i < j < |ls| && ParseLine(ls[j]).Entry? :: ParseLine(ls[j]).nonce != n
  }

  /** A file is loaded if and only if no line is bad. */
  lemma {:induction false} LoadedExactly(ls: seq<string>)
    ensures ReadLines(ls).Loaded? <==> forall i | 0 <= i < |ls| :: !ParseLine(ls[i]).Bad?
  {
    hide ParseLine;
    if ls != [] {
      var init := ls[..|ls| - 1];
      LoadedExactly(init);
      assert ls == init + [ls[|ls| - 1]];
    }
  }

  /** What is loaded: each nonce with the stamp of the last line that has it, and nothing else. */
  lemma {:induction false} EntriesExactly(ls: seq<string>, n: Nonce, t: nat)
    requires ReadLines(ls).Loaded?
    ensures var entries := ReadLines(ls).entries;
            (n in entries && entries[n] == t) <==> exists i: nat :: LastEntry(ls, i, n, t)
  {
    hide ParseLine;
    if ls != [] {
      var init, last := ls[..|ls| - 1], ParseLine(ls[|ls| - 1]);
      EntriesExactly(init, n, t);
      if last.Entry? && last.nonce == n {
        assert last.stamp == t ==> LastEntry(ls, |ls| - 1, n, t);
        assert forall i: nat | LastEntry(ls, i, n, t) :: i == |ls| - 1;
      } else {
        forall i: nat ensures LastEntry(ls, i, n, t) <==> LastEntry(init, i, n, t) {
          assert forall j | 0 <= j < |init| :: init[j] == ls[j];
        }
      }
    }
  }

  // ----- writing, and the round trip -----

  const HEADER := "# fwknox replay cache"

  function EntryLine(n: Nonce, t: nat): string {
    EncodeHex(n) + " " + ShowNat(t)
  }

  /** What `write_cache_file` puts in the file when the map yields its keys in the order `ks`. */
  function WriteText(ks: seq<Nonce>, entries: Entries): (text: string)
    requires forall k | k in ks :: k in entries
  {
    if ks == [] then HEADER + "\n"
    else
      var k := ks[|ks| - 1];
      WriteText(ks[..|ks| - 1], entries) + EntryLine(k, entries[k]) + "\n"
  }

  method WriteCacheFile(ks: seq<Nonce>, entries: Entries) returns (text: string)
    requires forall k | k in ks :: k in entries
    ensures text == WriteText(ks, entries)
  {
    text := HEADER + "\n";
    for i := 0 to |ks|
      invariant text == WriteText(ks[..i], entries)
    {
      assert ks[..i + 1][..i] == ks[..i];
      var hex := EncodeNonceHex(ks[i]);
      text := text + (hex + " " + ShowNat(entries[ks[i]])) + "\n";
    }
    assert ks[..|ks|] == ks;
  }

  lemma {:induction false} LineLengthIs(line: string, rest: string)
    requires '\n' !in line
    ensures LineLength(line + "\n" + rest) == |line|
  {
    var text := line + "\n" + rest;
    if line != [] {
      LineLengthIs(line[1..], rest);
      assert text[1..] == line[1..] + "\n" + rest;
    }
  }

  lemma LinesCons(head: string, rest: string)
    requires '\n' !in head
    ensures Lines(head + "\n" + rest) == [StripCr(head)] + Lines(rest)
  {
    hide StripCr, LineLength;
    var text := head + "\n" + rest;
    LineLengthIs(head, rest);
    assert text[..|head|] == head && text[|head| + 1..] == rest;
  }

  /** Both line endings end the same line. */
  lemma LineEndings(line: string, rest: string)
    requires '\n' !in line && (line == [] || line[|line| - 1] != '\r')
    ensures Lines(line + "\r\n" + rest) == Lines(line + "\n" + rest) == [line] + Lines(rest)
  {
    hide Lines;
    LinesCons(line, rest);
    LinesCons(line + "\r", rest);
    assert (line + "\r") + "\n" + rest == line + "\r\n" + rest;
  }

  /** A text of whole lines, followed by one more whole line. */
  lemma {:induction false} LinesAppend(text: string, line: string)
    requires text == [] || text[|text| - 1] == '\n'
    requires '\n' !in line && (line == [] || line[|line| - 1] != '\r')
    ensures Lines(text + line + "\n") == Lines(text) + [line]
    decreases |text|
  {
    hide Lines, LineLength;
    if text == [] {
      LinesCons(line, []);
      assert text + line + "\n" == line + "\n" + [];
      NoLines();
    } else {
      var n := LineLength(text);
      FirstLine(text);
      var head, rest := text[..n], text[n + 1..];
      assert text == head + "\n" + rest;
      LinesCons(head, rest);
      LinesCons(head, rest + line + "\n");
      assert text + line + "\n" == head + "\n" + (rest + line + "\n");
      LinesAppend(rest, line);
      assert [StripCr(head)] + (Lines(rest) + [line]) == ([StripCr(head)] + Lines(rest)) + [line];
    }
  }

  lemma NoLines()
    ensures Lines([]) == []
  {}

  lemma {:induction false} FirstLine(text: string)
    requires text != [] && text[|text| - 1] == '\n'
    ensures LineLength(text) < |text| && '\n' !in text[..LineLength(text)]
  {
    if text[0] != '\n' {
      FirstLine(text[1..]);
      assert text[..LineLength(text)] == [text[0]] + text[1..][..LineLength(text[1..])];
    }
  }

  lemma {:induction false} FieldLengthIs(a: string, b: string)
    requires (forall i | 0 <= i < |a| :: !IsWhitespace(a[i])) && (b == [] || IsWhitespace(b[0]))
    ensures FieldLength(a + b) == |a|
  {
    if a == [] {
      assert a + b == b;
    } else {
      FieldLengthIs(a[1..], b);
      assert (a + b)[1..] == a[1..] + b;
    }
  }

  ghost predicate Blank(s: string) {
    forall i | 0 <= i < |s| :: IsWhitespace(s[i])
  }

  ghost predicate Field(s: string) {
    s != [] && forall i | 0 <= i < |s| :: !IsWhitespace(s[i])
  }

  lemma {:induction false} SkipBlank(w: string, s: string)
    requires Blank(w) && (s == [] || !IsWhitespace(s[0]))
    ensures SkipSpace(w + s) == s
  {
    hide IsWhitespace;
    if w == [] {
      assert w + s == s;
    } else {
      SkipBlank(w[1..], s);
      assert (w + s)[1..] == w[1..] + s;
    }
  }

  /** Trimming stops at a visible character. */
  lemma {:induction false} TrimAfter(p: string, w: string)
    requires p != [] && !IsWhitespace(p[|p| - 1])
    ensures TrimEnd(p + w) == p + TrimEnd(w)
  {
    hide IsWhitespace;
    if w == [] {
      assert p + w == p;
    } else {
      TrimAfter(p, w[..|w| - 1]);
      assert (p + w)[..|p + w| - 1] == p + w[..|w| - 1];
    }
  }

  lemma {:induction false} TrimEndIsPrefix(w: string)
    ensures TrimEnd(w) <= w
    ensures Blank(w) ==> TrimEnd(w) == []
  {
    hide IsWhitespace;
    if w != [] { TrimEndIsPrefix(w[..|w| - 1]); }
  }

  lemma FirstField(w: string, a: string, rest: string)
    requires Blank(w) && Field(a) && (rest == [] || IsWhitespace(rest[0]))
    ensures NextField(w + a + rest) == Some((a, rest))
  {
    hide IsWhitespace, SkipSpace, FieldLength;
    assert w + a + rest == w + (a + rest);
    SkipBlank(w, a + rest);
    FieldLengthIs(a, rest);
  }

  /** A line with at least two fields is judged on those two alone, whatever surrounds them. */
  lemma LineOfTwo(w: string, a: string, sep: string, b: string, rest: string)
    requires Blank(w) && Field(a) && a[0] != '#' && Blank(sep) && sep != [] && Field(b)
    requires rest == [] || IsWhitespace(rest[0])
    ensures ParseLine(w + a + sep + b + rest)
         == if ParseNonce(a).None? then Bad(NonceNotHex)
            else if ParseU64(b).None? then Bad(TimestampNotU64)
            else Entry(ParseNonce(a).value, ParseU64(b).value)
  {
    hide IsWhitespace, SkipSpace, TrimEnd, NextField, ParseNonce, ParseU64;
    var body, tail := a + sep + b, TrimEnd(rest);
    assert w + a + sep + b + rest == w + (body + rest);
    SkipBlank(w, body + rest);
    TrimAfter(body, rest);
    TrimEndIsPrefix(rest);
    assert body + tail == [] + a + (sep + b + tail);
    FirstField([], a, sep + b + tail);
    FirstField(sep, b, tail);
  }

  /** A line of one field lacks its timestamp. */
  lemma LineOfOne(w: string, a: string, rest: string)
    requires Blank(w) && Field(a) && a[0] != '#' && Blank(rest)
    ensures ParseLine(w + a + rest) == Bad(MissingTimestamp)
  {
    hide IsWhitespace, TrimEnd;
    assert w + a + rest == w + (a + rest);
    SkipBlank(w, a + rest);
    TrimAfter(a, rest);
    TrimEndIsPrefix(rest);
    assert a + [] == [] + a + [];
    FirstField([], a, []);
  }

  /** Blank lines and lines whose first visible character is `#` are skipped. */
  lemma LineIgnored(w: string, rest: string)
    requires Blank(w) && (rest == [] || rest[0] == '#')
    ensures ParseLine(w + rest) == Ignored
  {
    hide NextField;
    SkipBlank(w, rest);
    if rest != [] {
      TrimAfter(rest[..1], rest[1..]);
      assert rest == rest[..1] + rest[1..];
    }
  }

  lemma EntryLineParses(n: Nonce, t: nat)
    requires t <= U64_MAX
    ensures ParseLine(EntryLine(n, t)) == Entry(n, t)
  {
    var hex, dec := EncodeHex(n), ShowNat(t);
    LineOfTwo([], hex, " ", dec, []);
    assert [] + hex + " " + dec + [] == EntryLine(n, t);
    NonceFieldRoundTrip(n, "");
    ShowParses(t);
  }

  lemma EntryLineShape(n: Nonce, t: nat)
    ensures var line := EntryLine(n, t); '\n' !in line && line != [] && line[|line| - 1] != '\r'
  {
    var hex, dec := EncodeHex(n), ShowNat(t);
    var line := EntryLine(n, t);
    assert line[|line| - 1] == dec[|dec| - 1];
    forall i | 0 <= i < |line| ensures line[i] != '\n' {
      assert line[i] == if i < |hex| then hex[i] else if i == |hex| then ' ' else dec[i - |hex| - 1];
    }
  }

  lemma ReadOneMore(ls: seq<string>, line: string)
    requires ReadLines(ls).Loaded? && !ParseLine(line).Bad?
    ensures ReadLines(ls + [line]) == match ParseLine(line)
                                      case Entry(n, t) => Loaded(ReadLines(ls).entries[n := t])
                                      case _ => ReadLines(ls)
  {
    hide ParseLine;
    assert (ls + [line])[..|ls|] == ls;
  }

  lemma {:induction false} WrittenLines(ks: seq<Nonce>, entries: Entries)
    requires (forall k | k in ks :: k in entries) && forall k | k in entries :: entries[k] <= U64_MAX
    ensures var text := WriteText(ks, entries);
            && text != [] && text[|text| - 1] == '\n'
            && ReadLines(Lines(text)) == Loaded(map k | k in ks :: entries[k])
  {
    hide Lines, ParseLine, EntryLine, HEADER;
    HeaderIsIgnored();
    if ks == [] {
      LinesAppend([], HEADER);
      assert [] + HEADER + "\n" == HEADER + "\n";
      NoLines();
      ReadOneMore([], HEADER);
    } else {
      var init, k := ks[..|ks| - 1], ks[|ks| - 1];
      WrittenLines(init, entries);
      var before, line := WriteText(init, entries), EntryLine(k, entries[k]);
      EntryLineShape(k, entries[k]);
      LinesAppend(before, line);
      EntryLineParses(k, entries[k]);
      ReadOneMore(Lines(before), line);
      MapOneMore(ks, entries);
    }
  }

  lemma MapOneMore(ks: seq<Nonce>, entries: Entries)
    requires ks != [] && forall k | k in ks :: k in entries
    ensures var init, k := ks[..|ks| - 1], ks[|ks| - 1];
            (map x | x in ks :: entries[x]) == (map x | x in init :: entries[x])[k := entries[k]]
  {
    assert ks == ks[..|ks| - 1] + [ks[|ks| - 1]];
  }

  lemma HeaderIsIgnored()
    ensures ParseLine(HEADER) == Ignored && '\n' !in HEADER && HEADER != [] && HEADER[|HEADER| - 1] != '\r'
  {
    assert Trim(HEADER) == HEADER;
  }

  /**
    Cache file round trip: for every map from nonces to 64-bit stamps, and whatever order it is
    written in, reading the written text gives back exactly that map.
   */
  lemma FileRoundTrip(ks: seq<Nonce>, entries: Entries)
    requires Enumerates(ks, entries) && forall k | k in entries :: entries[k] <= U64_MAX
    ensures ReadLines(Lines(WriteText(ks, entries))) == Loaded(entries)
  {
    WrittenLines(ks, entries);
    assert (map k | k in ks :: entries[k]) == entries;
  }

  // ----- the format, spelled out -----

  const LOWER_DIGITS := "0123456789abcdef"
  const UPPER_DIGITS := "0123456789ABCDEF"

  /** The digits, and the letters of either case, are the hex digits, with their usual values. */
  lemma HexDigits(c: char, v: nat)
    requires v < 16
    ensures NibbleToHex(v) == LOWER_DIGITS[v]
    ensures HexToNibble(c) == Some(v) <==> c == LOWER_DIGITS[v] || c == UPPER_DIGITS[v]
  {}

  /** Each byte is written as two digits, the high one first. */
  lemma {:induction false} HexAt(bs: seq<byte>, i: nat)
    requires i < |bs|
    ensures EncodeHex(bs)[2 * i] == LOWER_DIGITS[bs[i] / 16] && EncodeHex(bs)[2 * i + 1] == LOWER_DIGITS[bs[i] % 16]
  {
    hide NibbleToHex, HexToNibble;
    var init, b := bs[..|bs| - 1], bs[|bs| - 1];
    HexDigits('0', b / 16);
    HexDigits('0', b % 16);
    if i < |init| {
      HexAt(init, i);
    }
  }

  /** The decimal text of a number denotes it, without leading zeros. */
  lemma {:induction false} ShowNatIs(n: nat)
    ensures AllDigits(ShowNat(n)) && Value(ShowNat(n)) == n && (n > 0 ==> ShowNat(n)[0] != '0')
  {
    hide Value;
    if n < 10 {
      DigitIs(n);
    } else {
      ShowNatIs(n / 10);
      ValueAppend(ShowNat(n / 10), Digit(n % 10));
    }
  }

  lemma DigitIs(n: nat)
    requires n < 10
    ensures Value([Digit(n)]) == n
  {
    assert [Digit(n)][1..] == [];
  }

  /** Among ASCII characters only the blank and tab to carriage return separate fields. */
  lemma AsciiWhitespace(c: char)
    requires c as int < 0x80
    ensures IsWhitespace(c) <==> c == ' ' || 9 <= c as int <= 13
  {}

  /** A last line without a newline is a line too, a carriage return at its end included. */
  lemma {:induction false} LinesUnterminated(text: string, line: string)
    requires text == [] || text[|text| - 1] == '\n'
    requires '\n' !in line && line != []
    ensures Lines(text + line) == Lines(text) + [line]
    decreases |text|
  {
    hide Lines, LineLength;
    if text == [] {
      assert text + line == line;
      OneLine(line);
      NoLines();
    } else {
      var n := LineLength(text);
      FirstLine(text);
      var head, rest := text[..n], text[n + 1..];
      assert text == head + "\n" + rest;
      LinesCons(head, rest);
      LinesCons(head, rest + line);
      assert text + line == head + "\n" + (rest + line);
      LinesUnterminated(rest, line);
    }
  }

  lemma OneLine(line: string)
    requires '\n' !in line && line != []
    ensures Lines(line) == [line]
  {
    hide StripCr;
    NoNewline(line);
  }

  lemma {:induction false} NoNewline(line: string)
    requires '\n' !in line
    ensures LineLength(line) == |line|
  {
    if line != [] { NoNewline(line[1..]); }
  }

  /** The file: a comment line, then per entry 32 hex digits, a blank and the decimal stamp, in the order written. */
  lemma {:induction false} WrittenFormat(ks: seq<Nonce>, entries: Entries)
    requires forall k | k in ks :: k in entries
    ensures var ls := Lines(WriteText(ks, entries));
            && |ls| == 1 + |ks| && ls[0] != [] && ls[0][0] == '#'
            && forall i | 0 <= i < |ks| :: ls[i + 1] == EncodeHex(ks[i]) + " " + ShowNat(entries[ks[i]])
  {
    hide Lines, EntryLine, HEADER;
    var text := WriteText(ks, entries);
    HeaderIsIgnored();
    HeaderIsComment();
    if ks == [] {
      LinesAppend([], HEADER);
      assert [] + HEADER + "\n" == text;
      NoLines();
    } else {
      var init, k := ks[..|ks| - 1], ks[|ks| - 1];
      WrittenFormat(init, entries);
      WholeLines(init, entries);
      EntryLineShape(k, entries[k]);
      LinesAppend(WriteText(init, entries), EntryLine(k, entries[k]));
      EntryLineIs(k, entries[k]);
    }
  }

  lemma WholeLines(ks: seq<Nonce>, entries: Entries)
    requires forall k | k in ks :: k in entries
    ensures var text := WriteText(ks, entries); text != [] && text[|text| - 1] == '\n'
  {
    hide EntryLine, HEADER;
  }

  lemma HeaderIsComment()
    ensures HEADER != [] && HEADER[0] == '#'
  {}

  lemma EntryLineIs(n: Nonce, t: nat)
    ensures EntryLine(n, t) == EncodeHex(n) + " " + ShowNat(t)
  {}
}
