/** Patch bytes from the configuration: decoding hexadecimal text into a reused buffer,
    looking a patch up by name or inline, and writing it inside the module only. */
module PatchBytes {
  import opened Text
  import opened Decimals
  import opened IniStore
  import IniOps

  // ---------------------------------------------------------------- reading the configuration

  /** IniGetRaw: the value of an option that exists and has one, or the default. */
  function IniGetRaw(o: ParseOptions, st: Store, section: string, key: string, default: string): string {
    if !IniOps.HasSection(o, st, section) || !IniOps.HasOption(o, st, section, key) then default
    else
      match IniOps.GetRaw(o, st, section, key) {
        case Ok(Some(v)) => v
        case _ => default
      }
  }

  // ---------------------------------------------------------------- hexadecimal

  /** HexNibble: the digit's value, or -1. */
  function HexNibble(c: char): (v: int)
    ensures -1 <= v < 16
  {
    if '0' <= c <= '9' then c as int - '0' as int
    else if 'a' <= c <= 'f' then c as int - 'a' as int + 10
    else if 'A' <= c <= 'F' then c as int - 'A' as int + 10
    else -1
  }

  const LOWER_DIGITS := "0123456789abcdef"
  const UPPER_DIGITS := "0123456789ABCDEF"

  /** A character has a value exactly when it is one of the sixteen digits in either case, and then its place there. */
  lemma HexNibbleIs(c: char)
    ensures HexNibble(c) >= 0 <==> c in LOWER_DIGITS || c in UPPER_DIGITS
    ensures HexNibble(c) >= 0 ==> c == LOWER_DIGITS[HexNibble(c)] || c == UPPER_DIGITS[HexNibble(c)]
  {
    var v := HexNibble(c);
    assert v >= 0 ==> c == LOWER_DIGITS[v] || c == UPPER_DIGITS[v];
  }

  predicate IsSeparator(c: char) {
    c == ' ' || c == '\t' || c == ',' || c == '-'
  }

  /** The text without its separators. */
  function Compact(raw: string): string {
    if raw == "" then "" else (if IsSeparator(raw[0]) then "" else [raw[0]]) + Compact(raw[1..])
  }

  predicate AllHex(hex: string) {
    forall i :: 0 <= i < |hex| ==> HexNibble(hex[i]) >= 0
  }

  function PairBytes(hex: string): (r: seq<Byte>)
    requires |hex| % 2 == 0 && AllHex(hex)
    ensures |r| == |hex| / 2
    ensures forall j :: 0 <= j < |r| ==> r[j] as int == HexNibble(hex[2 * j]) * 16 + HexNibble(hex[2 * j + 1])
  {
    seq(|hex| / 2, j requires 0 <= j < |hex| / 2 => (HexNibble(hex[2 * j]) * 16 + HexNibble(hex[2 * j + 1])) as Byte)
  }

  /** What a configured text means as patch bytes. */
  function Decode(raw: string, maxLen: nat): Option<seq<Byte>> {
    var hex := Compact(raw);
    if raw == "" || |hex| % 2 != 0 || |hex| > maxLen * 2 || !AllHex(hex) then None
    else Some(PairBytes(hex))
  }

  lemma {:induction false} CompactSnoc(raw: string, c: char)
    ensures Compact(raw + [c]) == if IsSeparator(c) then Compact(raw) else Compact(raw) + [c]
  {
    if raw == "" {
      NilConcat([c]);
      ConsTail(c, "");
    } else {
      HeadTail(raw);
      assert (raw + [c])[1..] == raw[1..] + [c];
      CompactSnoc(raw[1..], c);
    }
  }

  lemma PairSnoc(hex: string, i: nat)
    requires i + 2 <= |hex| && i % 2 == 0 && AllHex(hex[..i])
    requires HexNibble(hex[i]) >= 0 && HexNibble(hex[i + 1]) >= 0
    ensures AllHex(hex[..i + 2])
    ensures PairBytes(hex[..i + 2]) == PairBytes(hex[..i]) + [(HexNibble(hex[i]) * 16 + HexNibble(hex[i + 1])) as Byte]
  {
    var a, b := hex[..i], hex[..i + 2];
    assert forall k :: 0 <= k < i ==> b[k] == a[k];
    assert b[i] == hex[i] && b[i + 1] == hex[i + 1];
  }

  lemma NotAllHex(hex: string, i: nat)
    requires i < |hex| && HexNibble(hex[i]) < 0
    ensures !AllHex(hex)
  {}

  /** GetByteArrayFromIni on the text found. The buffer may be left partly overwritten by a text that turns out
      malformed, but the answer and the size depend on the text alone and nothing past maxLen is touched. */
  method GetByteArray(raw: string, out: array<Byte>, outSize: nat, maxLen: nat) returns (ok: bool, size: nat)
    requires maxLen <= out.Length && maxLen <= 255
    modifies out
    ensures ok <==> Decode(raw, maxLen).Some?
    ensures ok ==> size <= maxLen && out[..size] == Decode(raw, maxLen).value
    ensures !ok ==> size == outSize
    ensures out[maxLen..] == old(out[maxLen..])
  {
    hide Compact, HexNibble;
    size := outSize;
    if raw == "" {
      return false, size;
    }
    var hex := Keep(raw);
    if |hex| % 2 != 0 {
      return false, size;
    }
    if |hex| > maxLen * 2 {
      return false, size;
    }
    ok := DecodeInto(hex, out, maxLen);
    if ok {
      size := |hex| / 2;
    }
  }

  /** The loop that drops separators. */
  method Keep(raw: string) returns (hex: string)
    ensures hex == Compact(raw)
  {
    hide Compact, IsSeparator;
    hex := "";
    CompactNone();
    for i := 0 to |raw|
      invariant hex == Compact(raw[..i])
    {
      CompactSnoc(raw[..i], raw[i]);
      assert raw[..i + 1] == raw[..i] + [raw[i]];
      if IsSeparator(raw[i]) {
        continue;
      }
      hex := hex + [raw[i]];
    }
    assert raw[..|raw|] == raw;
  }

  lemma CompactNone()
    ensures Compact("") == ""
  {}

  lemma StoredByte(before: seq<Byte>, after: seq<Byte>, j: nat, b: Byte, limit: nat)
    requires j < limit <= |before| && after == before[j := b]
    ensures after[..j + 1] == before[..j] + [b] && after[limit..] == before[limit..]
  {}

  lemma HexSoFar(hex: string, i: nat)
    requires i <= |hex| && i % 2 == 0
    ensures i == 0 ==> AllHex(hex[..i]) && PairBytes(hex[..i]) == []
    ensures i == |hex| ==> hex[..i] == hex
  {}

  /** The loop that decodes digit pairs in place. */
  method DecodeInto(hex: string, out: array<Byte>, maxLen: nat) returns (ok: bool)
    requires |hex| % 2 == 0 && |hex| <= maxLen * 2 && maxLen <= out.Length
    modifies out
    ensures ok <==> AllHex(hex)
    ensures ok ==> out[..|hex| / 2] == PairBytes(hex)
    ensures out[maxLen..] == old(out[maxLen..])
  {
    hide HexNibble, AllHex, PairBytes;
    var i := 0;
    HexSoFar(hex, 0);
    while i < |hex|
      invariant i <= |hex| && i % 2 == 0
      invariant AllHex(hex[..i]) && out[..i / 2] == PairBytes(hex[..i])
      invariant out[maxLen..] == old(out[maxLen..])
    {
      var hi, lo := HexNibble(hex[i]), HexNibble(hex[i + 1]);
      if hi < 0 || lo < 0 {
        NotAllHex(hex, if hi < 0 then i else i + 1);
        return false;
      }
      PairSnoc(hex, i);
      ghost var before := out[..];
      out[i / 2] := (hi * 16 + lo) as Byte;
      StoredByte(before, out[..], i / 2, (hi * 16 + lo) as Byte, maxLen);
      i := i + 2;
    }
    HexSoFar(hex, i);
    ok := true;
  }

  // ---------------------------------------------------------------- encoding

  function HexChar(v: nat, upper: bool): (c: char)
    requires v < 16
    ensures HexNibble(c) == v && !IsSeparator(c)
  {
    if v < 10 then ('0' as int + v) as char
    else if upper then ('A' as int + v - 10) as char
    else ('a' as int + v - 10) as char
  }

  /** The two digits of every byte. */
  function Nibbles(bytes: seq<Byte>): (r: seq<nat>)
    ensures |r| == 2 * |bytes|
    ensures forall j :: 0 <= j < |bytes| ==> r[2 * j] == bytes[j] as nat / 16 && r[2 * j + 1] == bytes[j] as nat % 16
    ensures forall i :: 0 <= i < |r| ==> r[i] < 16
  {
    seq(2 * |bytes|, i requires 0 <= i < 2 * |bytes| =>
      if i % 2 == 0 then bytes[i / 2] as nat / 16 else bytes[i / 2] as nat % 16)
  }

  /** Blanks, tabs, commas and dashes only. */
  predicate AllSeparators(s: string) {
    forall i :: 0 <= i < |s| ==> s[i] in " \t,-"
  }

  lemma SeparatorIs(c: char)
    ensures IsSeparator(c) <==> c in " \t,-"
  {
    var all := " \t,-";
    assert c in all <==> c == all[0] || c == all[1] || c == all[2] || c == all[3];
  }

  /** A text of these digits in any mixture of cases, with any separators before, between and after them. */
  ghost predicate Spells(raw: string, digits: seq<nat>) {
    exists gaps: seq<string>, cases: seq<bool> :: Spelled(raw, digits, gaps, cases)
  }

  predicate Spelled(raw: string, digits: seq<nat>, gaps: seq<string>, cases: seq<bool>)
    decreases |digits|
  {
    && |gaps| == |digits| + 1 && |cases| == |digits| && AllSeparators(gaps[0])
    && if digits == [] then raw == gaps[0]
       else
         && digits[0] < 16
         && var front := gaps[0] + [HexChar(digits[0], cases[0])];
         && front <= raw && Spelled(raw[|front|..], digits[1..], gaps[1..], cases[1..])
  }

  predicate SameDigits(hex: string, digits: seq<nat>) {
    |hex| == |digits| && forall i :: 0 <= i < |hex| ==> HexNibble(hex[i]) == digits[i]
  }

  lemma {:induction false} CompactConcat(a: string, b: string)
    ensures Compact(a + b) == Compact(a) + Compact(b)
  {
    if a == "" {
      NilConcat(b);
    } else {
      assert (a + b)[1..] == a[1..] + b;
      CompactConcat(a[1..], b);
    }
  }

  lemma {:induction false} CompactSeparators(s: string)
    requires AllSeparators(s)
    ensures Compact(s) == ""
  {
    if s != "" {
      CompactSeparators(s[1..]);
    }
  }

  lemma CompactOne(c: char)
    requires !IsSeparator(c)
    ensures Compact([c]) == [c]
  {
    ConsTail(c, "");
    NilConcat([c]);
  }

  lemma CompactFront(gap: string, c: char, rest: string)
    requires AllSeparators(gap) && !IsSeparator(c)
    ensures Compact(gap + ([c] + rest)) == [c] + Compact(rest)
  {
    hide Compact, IsSeparator;
    CompactSeparators(gap);
    CompactConcat(gap, [c] + rest);
    CompactConcat([c], rest);
    CompactOne(c);
    NilConcat([c] + Compact(rest));
  }

  /** What spelling a non-empty digit list says about the text's front. */
  lemma SpelledFront(raw: string, digits: seq<nat>, gaps: seq<string>, cases: seq<bool>) returns (c: char, rest: string)
    requires Spelled(raw, digits, gaps, cases) && digits != []
    ensures AllSeparators(gaps[0]) && digits[0] < 16 && c == HexChar(digits[0], cases[0])
    ensures raw == gaps[0] + ([c] + rest) && Spelled(rest, digits[1..], gaps[1..], cases[1..])
  {
    hide HexChar, IsSeparator;
    c := HexChar(digits[0], cases[0]);
    var front := gaps[0] + [c];
    rest := raw[|front|..];
    Assoc(gaps[0], [c], rest);
  }

  lemma SameDigitsCons(c: char, hex: string, digits: seq<nat>)
    requires digits != [] && HexNibble(c) == digits[0] && SameDigits(hex, digits[1..])
    ensures SameDigits([c] + hex, digits)
  {
    hide HexNibble;
  }

  lemma {:induction false} SpelledCompacts(raw: string, digits: seq<nat>, gaps: seq<string>, cases: seq<bool>)
    requires Spelled(raw, digits, gaps, cases)
    ensures SameDigits(Compact(raw), digits)
    decreases |digits|
  {
    hide HexNibble, IsSeparator, HexChar, Compact, AllSeparators;
    if digits == [] {
      CompactSeparators(raw);
    } else {
      var c, rest := SpelledFront(raw, digits, gaps, cases);
      hide Spelled, SameDigits;
      SpelledCompacts(rest, digits[1..], gaps[1..], cases[1..]);
      CompactFront(gaps[0], c, rest);
      SameDigitsCons(c, Compact(rest), digits);
    }
  }

  /** Which letter case a digit is written in. */
  predicate IsUpper(c: char) {
    'A' <= c <= 'F'
  }

  lemma {:induction false} CompactSpells(raw: string, digits: seq<nat>) returns (gaps: seq<string>, cases: seq<bool>)
    requires SameDigits(Compact(raw), digits)
    ensures Spelled(raw, digits, gaps, cases)
    decreases |raw|
  {
    if raw == "" {
      gaps, cases := [""], [];
    } else if IsSeparator(raw[0]) {
      gaps, cases := CompactSpells(raw[1..], digits);
      AddSeparator(raw, digits, gaps, cases);
      gaps := [[raw[0]] + gaps[0]] + gaps[1..];
    } else {
      SameTail(raw, digits);
      var g, k := CompactSpells(raw[1..], digits[1..]);
      gaps, cases := [""] + g, [IsUpper(raw[0])] + k;
      AddDigit(raw, digits, g, k);
    }
  }

  lemma SameTail(raw: string, digits: seq<nat>)
    requires raw != "" && !IsSeparator(raw[0]) && SameDigits(Compact(raw), digits)
    ensures digits != [] && SameDigits(Compact(raw[1..]), digits[1..])
    ensures HexNibble(raw[0]) == digits[0] && digits[0] < 16
  {
    hide HexNibble, IsSeparator;
    var hex := Compact(raw);
    assert hex == [raw[0]] + Compact(raw[1..]);
    assert hex[0] == raw[0];
    assert forall i :: 0 <= i < |hex| - 1 ==> Compact(raw[1..])[i] == hex[i + 1];
  }

  lemma AddSeparator(raw: string, digits: seq<nat>, gaps: seq<string>, cases: seq<bool>)
    requires raw != "" && IsSeparator(raw[0]) && Spelled(raw[1..], digits, gaps, cases)
    ensures Spelled(raw, digits, [[raw[0]] + gaps[0]] + gaps[1..], cases)
  {
    SeparatorIs(raw[0]);
    hide IsSeparator, HexNibble;
    var wide := [[raw[0]] + gaps[0]] + gaps[1..];
    assert wide[1..] == gaps[1..] && wide[0] == [raw[0]] + gaps[0];
    HeadTail(raw);
    if digits != [] {
      var c := HexChar(digits[0], cases[0]);
      Assoc([raw[0]], gaps[0], [c]);
      var front := gaps[0] + [c];
      assert raw[1..][|front|..] == raw[|front| + 1..];
    }
  }

  lemma AddDigit(raw: string, digits: seq<nat>, g: seq<string>, k: seq<bool>)
    requires raw != "" && digits != [] && HexNibble(raw[0]) == digits[0] && digits[0] < 16
    requires Spelled(raw[1..], digits[1..], g, k)
    ensures Spelled(raw, digits, [""] + g, [IsUpper(raw[0])] + k)
  {
    CharOfDigit(raw[0]);
    hide HexNibble, IsUpper, IsSeparator;
    ConsTail("", g);
    ConsTail(IsUpper(raw[0]), k);
    NilConcat([raw[0]]);
    assert raw[..1] == [raw[0]];
  }

  lemma CharOfDigit(c: char)
    requires HexNibble(c) >= 0
    ensures HexChar(HexNibble(c), IsUpper(c)) == c
  {}

  /** The pair of digits at one byte. */
  predicate PairAt(hex: string, b: Byte, j: nat)
    requires 2 * j + 1 < |hex|
  {
    HexNibble(hex[2 * j]) == b as nat / 16 && HexNibble(hex[2 * j + 1]) == b as nat % 16
  }

  lemma NibblesAt(bytes: seq<Byte>, j: nat)
    requires j < |bytes|
    ensures Nibbles(bytes)[2 * j] == bytes[j] as nat / 16 && Nibbles(bytes)[2 * j + 1] == bytes[j] as nat % 16
  {}

  /** Every place is the first or the second of its pair. */
  lemma SameDigitsByPairs(hex: string, bytes: seq<Byte>)
    requires |hex| == 2 * |bytes|
    ensures SameDigits(hex, Nibbles(bytes)) <==> forall j :: 0 <= j < |bytes| ==> PairAt(hex, bytes[j], j)
  {
    hide HexNibble, Nibbles;
    var n := Nibbles(bytes);
    if SameDigits(hex, n) {
      forall j | 0 <= j < |bytes|
        ensures PairAt(hex, bytes[j], j)
      {
        NibblesAt(bytes, j);
        assert HexNibble(hex[2 * j]) == n[2 * j] && HexNibble(hex[2 * j + 1]) == n[2 * j + 1];
      }
    }
    if forall j :: 0 <= j < |bytes| ==> PairAt(hex, bytes[j], j) {
      forall i | 0 <= i < |hex|
        ensures HexNibble(hex[i]) == n[i]
      {
        var j := i / 2;
        assert i == 2 * j || i == 2 * j + 1;
        NibblesAt(bytes, j);
        assert PairAt(hex, bytes[j], j);
      }
    }
  }

  lemma PairsAreHex(hex: string, bytes: seq<Byte>)
    requires |hex| == 2 * |bytes| && forall j :: 0 <= j < |bytes| ==> PairAt(hex, bytes[j], j)
    ensures AllHex(hex)
  {
    hide HexNibble;
    forall i | 0 <= i < |hex|
      ensures HexNibble(hex[i]) >= 0
    {
      var j := i / 2;
      assert i == 2 * j || i == 2 * j + 1;
      assert PairAt(hex, bytes[j], j);
    }
  }

  lemma PairBytesAt(hex: string, b: Byte, j: nat)
    requires |hex| % 2 == 0 && AllHex(hex) && 2 * j + 1 < |hex|
    ensures PairBytes(hex)[j] == b <==> PairAt(hex, b, j)
  {}

  lemma DigitsPair(hex: string, bytes: seq<Byte>)
    ensures SameDigits(hex, Nibbles(bytes)) <==> (|hex| % 2 == 0 && AllHex(hex) && PairBytes(hex) == bytes)
  {
    hide HexNibble, Nibbles, PairAt, AllHex;
    if |hex| == 2 * |bytes| {
      SameDigitsByPairs(hex, bytes);
      if SameDigits(hex, Nibbles(bytes)) {
        PairsAreHex(hex, bytes);
      }
      if AllHex(hex) {
        var p := PairBytes(hex);
        forall j | 0 <= j < |bytes|
          ensures p[j] == bytes[j] <==> PairAt(hex, bytes[j], j)
        {
          PairBytesAt(hex, bytes[j], j);
        }
        hide PairBytes;
        assert p == bytes <==> forall j :: 0 <= j < |bytes| ==> p[j] == bytes[j];
      }
    }
  }

  /** Main result: a text decodes to these bytes exactly when it is not empty, they fit, and it spells their
      digits, in any mixture of cases and with separators anywhere. */
  lemma DecodesIffSpells(raw: string, bytes: seq<Byte>, maxLen: nat)
    ensures Decode(raw, maxLen) == Some(bytes) <==> raw != "" && |bytes| <= maxLen && Spells(raw, Nibbles(bytes))
  {
    hide Compact, HexNibble, PairBytes, Spelled, Nibbles;
    var hex := Compact(raw);
    DigitsPair(hex, bytes);
    if Spells(raw, Nibbles(bytes)) {
      var gaps: seq<string>, cases: seq<bool> :| Spelled(raw, Nibbles(bytes), gaps, cases);
      SpelledCompacts(raw, Nibbles(bytes), gaps, cases);
    }
    if SameDigits(hex, Nibbles(bytes)) {
      var gaps, cases := CompactSpells(raw, Nibbles(bytes));
    }
  }

  // ---------------------------------------------------------------- choosing the patch

  /** A C string ends at its first NUL. */
  function CString(s: string): string {
    if s == "" || s[0] == '\0' then "" else [s[0]] + CString(s[1..])
  }

  const NAME_SIZE := 255
  const BUFFER_SIZE := 255

  /** strncpy_s with truncation: what fits before the terminator. */
  function PatchName(o: ParseOptions, st: Store, section: string, codeKey: string): string {
    var s := CString(IniGetRaw(o, st, section, codeKey, ""));
    if |s| > NAME_SIZE - 1 then s[..NAME_SIZE - 1] else s
  }

  /** The bytes a patch key stands for: the named entry of [PatchCodes], or the key's own text. */
  function PatchCode(o: ParseOptions, st: Store, section: string, codeKey: string): Option<seq<Byte>> {
    var name := PatchName(o, st, section, codeKey);
    if name == "" then None
    else
      var named := Decode(IniGetRaw(o, st, "PatchCodes", name, ""), 255);
      if named.Some? then named else Decode(IniGetRaw(o, st, section, codeKey, ""), 255)
  }

  /** ResolvePatchBytes: one buffer for both lookups, yet what a failed first lookup left in it never shows. */
  method ResolvePatchBytes(o: ParseOptions, st: Store, section: string, codeKey: string, buffer: array<Byte>)
    returns (ok: bool, size: nat)
    requires buffer.Length == BUFFER_SIZE
    modifies buffer
    ensures ok <==> PatchCode(o, st, section, codeKey).Some?
    ensures ok ==> size <= BUFFER_SIZE && buffer[..size] == PatchCode(o, st, section, codeKey).value
    ensures !ok ==> size == 0
  {
    hide Decode, IniGetRaw, CString;
    size := 0;
    var name := PatchName(o, st, section, codeKey);
    if name == "" {
      return false, 0;
    }
    var parsed := 0;
    ok, parsed := GetByteArray(IniGetRaw(o, st, "PatchCodes", name, ""), buffer, parsed, 255);
    if ok {
      return true, parsed;
    }
    ok, parsed := GetByteArray(IniGetRaw(o, st, section, codeKey, ""), buffer, parsed, 255);
    if ok {
      return true, parsed;
    }
    ok := false;
  }

  // ---------------------------------------------------------------- numbers

  function HexEnd(s: string, from: nat): (r: nat)
    requires from <= |s|
    ensures from <= r <= |s| && forall i :: from <= i < r ==> HexNibble(s[i]) >= 0
    decreases |s| - from
  {
    if from < |s| && HexNibble(s[from]) >= 0 then HexEnd(s, from + 1) else from
  }

  function HexValue(s: string): nat
    requires AllHex(s)
  {
    if s == "" then 0
    else
      assert HexNibble(s[|s| - 1]) >= 0;
      16 * HexValue(s[..|s| - 1]) + HexNibble(s[|s| - 1])
  }

  const ULLONG := 0x1_0000_0000_0000_0000

  /** Where its hexadecimal digits begin: after the prefix, if digits follow it. */
  function First(s: string): (r: nat)
    ensures r <= |s|
  {
    var start := Start(s);
    if start + 2 < |s| && s[start] == '0' && (s[start + 1] == 'x' || s[start + 1] == 'X')
       && HexNibble(s[start + 2]) >= 0
    then start + 2 else start
  }

  /** strtoull in base sixteen: the value, or None when it is out of range or text is left over. */
  function HexNumber(text: string): Option<nat> {
    var s := CString(text);
    var first := First(s);
    var end := HexEnd(s, first);
    if end == first then if s == "" then Some(0) else None
    else
      var v := HexValue(s[first..end]);
      if v >= ULLONG || end != |s| then None
      else Some(if Start(s) > 0 && s[Start(s) - 1] == '-' then (ULLONG - v) % ULLONG else v)
  }

  /** INIReadDWordHex with default 0, for addresses below `limit`. */
  function ReadOffset(o: ParseOptions, st: Store, section: string, key: string, limit: nat): nat {
    var text := IniGetRaw(o, st, section, key, "");
    if text == "" then 0
    else
      var v := HexNumber(text);
      if v.None? || v.value >= limit then 0 else v.value
  }

  /** strtol in base ten is not zero. */
  predicate NonZeroFrom(s: string, i: nat)
    decreases |s| - i
  {
    i < |s| && IsDigit(s[i]) && (s[i] != '0' || NonZeroFrom(s, i + 1))
  }

  /** GetBoolFromIni with default false. */
  predicate Enabled(o: ParseOptions, st: Store, section: string, key: string) {
    var s := CString(IniGetRaw(o, st, section, key, ""));
    NonZeroFrom(s, Start(s))
  }

  // ---------------------------------------------------------------- writing the patch

  /** The write ApplyConfiguredPatch decides on: where from the module's base, and which bytes. */
  datatype Plan = Plan(offset: nat, bytes: seq<Byte>)

  datatype PatchKeys = PatchKeys(section: string, enabled: string, offset: string, code: string)

  function PatchPlan(o: ParseOptions, st: Store, keys: PatchKeys, moduleSize: nat, limit: nat): Option<Plan> {
    var offset := ReadOffset(o, st, keys.section, keys.offset, limit);
    var code := PatchCode(o, st, keys.section, keys.code);
    if !Enabled(o, st, keys.section, keys.enabled) || offset == 0 || code.None? || code.value == []
       || offset >= moduleSize || |code.value| > moduleSize - offset
    then None
    else Some(Plan(offset, code.value))
  }

  /** One call to write memory, and whether it stored everything. */
  datatype Written = Written(address: nat, data: seq<Byte>, ok: bool)

  /** Memory by address, with a record of the calls that write it. */
  class Memory {
    var cells: map<nat, Byte>
    ghost var writes: seq<Written>

    constructor (m: map<nat, Byte>)
      ensures cells == m && writes == []
    {
      cells, writes := m, [];
    }

    /** PatchMemoryWrite: all of the data, or a failure that may have stored some of its front. */
    method Write(address: nat, data: seq<Byte>) returns (ok: bool)
      modifies this
      ensures KeepsOutside(old(cells), cells, address, address + |data|)
      ensures ok ==> Holds(cells, address, data)
      ensures writes == old(writes) + [Written(address, data, ok)]
    {
      var n: int := *;
      var count := if 0 <= n <= |data| then n else |data|;
      var i := 0;
      while i < count
        invariant 0 <= i <= count
        invariant KeepsOutside(old(cells), cells, address, address + |data|)
        invariant Holds(cells, address, data[..i]) && writes == old(writes)
      {
        cells := cells[address + i := data[i]];
        i := i + 1;
      }
      ok := count == |data|;
      writes := writes + [Written(address, data, ok)];
      assert ok ==> data[..i] == data;
    }
  }

  /** Addresses outside [from, to) are mapped as before and hold what they held. */
  ghost predicate KeepsOutside(before: map<nat, Byte>, after: map<nat, Byte>, from: nat, to: nat) {
    && (forall a :: a in before ==> a in after)
    && (forall a :: a in after && !(from <= a < to) ==> a in before && after[a] == before[a])
  }

  /** The bytes of `data` are in memory from `address` on. */
  ghost predicate Holds(cells: map<nat, Byte>, address: nat, data: seq<Byte>) {
    forall a :: address <= a < address + |data| ==> a in cells && cells[a] == data[a - address]
  }

  /** Neither the subtraction in the range check nor the address addition can wrap, and the range written
      lies inside the module. */
  lemma PlanFits(o: ParseOptions, st: Store, keys: PatchKeys, base: nat, moduleSize: nat, limit: nat)
    requires base + moduleSize <= limit && PatchPlan(o, st, keys, moduleSize, limit).Some?
    ensures var p := PatchPlan(o, st, keys, moduleSize, limit).value;
            && 0 < p.offset && 0 < |p.bytes| <= 255
            && (base + p.offset) % limit == base + p.offset
            && base < base + p.offset && base + p.offset + |p.bytes| <= base + moduleSize
  {
    hide Decode, IniGetRaw, PatchName, Enabled, ReadOffset;
    CodeFits(o, st, keys.section, keys.code);
  }

  lemma CodeFits(o: ParseOptions, st: Store, section: string, codeKey: string)
    ensures PatchCode(o, st, section, codeKey).Some? ==> |PatchCode(o, st, section, codeKey).value| <= 255
  {
    hide Compact, AllHex, IniGetRaw, PatchName;
  }

  /** ApplyConfiguredPatch on a module mapped at `base`, addresses being below `limit`. With a plan it makes one
      write, of the configured bytes at base + offset, and answers as that write does; without one it makes none.
      Outside [base + offset, base + offset + size) nothing changes, and an applied patch is exactly the configured
      bytes there. */
  method ApplyConfiguredPatch(o: ParseOptions, st: Store, keys: PatchKeys, base: nat, moduleSize: nat, limit: nat,
                              memory: Memory)
    returns (applied: bool)
    requires base + moduleSize <= limit && limit <= ULLONG
    modifies memory
    ensures var plan := PatchPlan(o, st, keys, moduleSize, limit);
            && (plan.None? ==> !applied && memory.cells == old(memory.cells) && memory.writes == old(memory.writes))
            && (plan.Some? ==>
                  var from, to := base + plan.value.offset, base + plan.value.offset + |plan.value.bytes|;
                  && base <= from <= to <= base + moduleSize
                  && memory.writes == old(memory.writes) + [Written(from, plan.value.bytes, applied)]
                  && KeepsOutside(old(memory.cells), memory.cells, from, to)
                  && (applied ==> Holds(memory.cells, from, plan.value.bytes)))
  {
    hide PatchCode, ReadOffset, Enabled;
    applied := false;
    if !Enabled(o, st, keys.section, keys.enabled) {
      return;
    }
    var offset := ReadOffset(o, st, keys.section, keys.offset, limit);
    if offset == 0 {
      return;
    }
    var buffer := new Byte[BUFFER_SIZE](_ => 0);
    var ok, size := ResolvePatchBytes(o, st, keys.section, keys.code, buffer);
    if !ok || size == 0 {
      return;
    }
    if offset >= moduleSize || size > moduleSize - offset {
      return;
    }
    PlanFits(o, st, keys, base, moduleSize, limit);
    var address := (base + offset) % limit;
    applied := memory.Write(address, buffer[..size]);
  }
}
