/** What the configured texts of a patch mean: the switch, the offset and the code, each said from the stored text
    alone, and with them exactly which write a configuration asks for. */
module PatchConfig {
  import opened Text
  import opened Decimals
  import opened IniStore
  import opened IniMeaning
  import IniOps
  import IniViews
  import opened PatchBytes

  // ---------------------------------------------------------------- stored texts

  /** The text a reader of the configuration finds: the section's own entry, or DEFAULT's if it has none; nothing if
      the section is not there or the entry has no value. */
  predicate Finds(o: ParseOptions, st: Store, section: string, key: string, text: string) {
    && IniOps.HasSection(o, st, section)
    && var own := StoredValue(o, st, section, ToLower(key));
    && var entry := if own.Some? then own else StoredValue(o, st, o.defaultSection, ToLower(key));
    && entry == Some(Some(text))
  }

  lemma FindsOne(o: ParseOptions, st: Store, section: string, key: string, a: string, b: string)
    requires Finds(o, st, section, key, a) && Finds(o, st, section, key, b)
    ensures a == b
  {}

  /** IniGetRaw gives the text found, or else the default. */
  lemma RawTextIs(o: ParseOptions, st: Store, section: string, key: string, default: string)
    ensures var r := IniGetRaw(o, st, section, key, default);
            Finds(o, st, section, key, r) || (r == default && forall t :: !Finds(o, st, section, key, t))
  {
    hide StoredValue, IniOps.HasSection, IniOps.HasOption, IniOps.GetRaw, ToLower;
    IniViews.HasOptionLayers(o, st, section, key);
    IniViews.GetRawLayers(o, st, section, key);
  }

  /** The text as C reads it: up to the first NUL. */
  lemma {:induction false} CStringIs(s: string)
    ensures var r := CString(s);
            r <= s && Lacks(r, '\0') && (|r| < |s| ==> s[|r|] == '\0')
  {
    if s != "" && s[0] != '\0' {
      CStringIs(s[1..]);
    }
  }

  // ---------------------------------------------------------------- hexadecimal numbers

  /** s are digits of n in base sixteen, in any mixture of cases, with any number of leading zeros. */
  predicate IsHexOf(s: string, n: nat)
    decreases |s|
  {
    if s == "" then n == 0
    else
      && (s[|s| - 1] == LOWER_DIGITS[n % 16] || s[|s| - 1] == UPPER_DIGITS[n % 16])
      && IsHexOf(s[..|s| - 1], n / 16)
  }

  lemma DigitIs(c: char, d: nat)
    requires d < 16
    ensures c == LOWER_DIGITS[d] || c == UPPER_DIGITS[d] <==> HexNibble(c) == d
  {
    hide HexNibble;
    HexNibbleIs(c);
    DigitValue(d);
  }

  lemma DigitValue(d: nat)
    requires d < 16
    ensures HexNibble(LOWER_DIGITS[d]) == d && HexNibble(UPPER_DIGITS[d]) == d
  {}

  lemma Divided(q: nat, d: nat, n: nat)
    requires d < 16
    ensures 16 * q + d == n <==> q == n / 16 && d == n % 16
  {}

  /** The value of a run of digits is the number whose digits they are. */
  lemma {:induction false} HexValueExactly(s: string, n: nat)
    ensures AllHex(s) && HexValue(s) == n <==> IsHexOf(s, n)
    decreases |s|
  {
    hide HexNibble;
    if s != "" {
      var front, last := s[..|s| - 1], s[|s| - 1];
      HexValueExactly(front, n / 16);
      DigitIs(last, n % 16);
      if AllHex(front) && HexNibble(last) >= 0 {
        AllHexSnoc(front, last);
        Divided(HexValue(front), HexNibble(last), n);
      } else {
        assert AllHex(s) ==> AllHex(front) && HexNibble(last) >= 0;
      }
      assert front + [last] == s;
    }
  }

  lemma AllHexSnoc(s: string, c: char)
    requires AllHex(s) && HexNibble(c) >= 0
    ensures AllHex(s + [c])
  {}

  predicate Prefix(s: string) {
    s == "" || s == "0x" || s == "0X"
  }

  /** The number of these digits under a sign: below zero it is counted from the top. */
  function Signed(sign: string, m: nat): nat
    requires m < ULLONG
  {
    if sign == "-" then (ULLONG - m) % ULLONG else m
  }

  /** s is white space, a sign, a prefix and the digits of m, the parts before the digits being optional. */
  predicate NumberText(s: string, space: string, sign: string, prefix: string, digits: string, m: nat) {
    && s == space + sign + prefix + digits && AllSpace(space) && Sign(sign) && Prefix(prefix)
    && digits != "" && IsHexOf(digits, m)
  }

  /** The whole text spells n. */
  ghost predicate SpellsNumber(s: string, n: nat) {
    exists space, sign, prefix, digits, m: nat ::
      NumberText(s, space, sign, prefix, digits, m) && m < ULLONG && n == Signed(sign, m)
  }

  lemma {:induction false} HexEndAt(s: string, from: nat, to: nat)
    requires from <= to <= |s| && (forall i :: from <= i < to ==> HexNibble(s[i]) >= 0)
    requires to < |s| ==> HexNibble(s[to]) < 0
    ensures HexEnd(s, from) == to
    decreases |s| - from
  {
    hide HexNibble;
    if from < to {
      HexEndAt(s, from + 1, to);
    }
  }

  /** HexNumber by its parts: all from the first digit on must be digits. */
  lemma HexNumberIs(text: string)
    ensures var s := CString(text);
            var first := First(s);
            HexNumber(text) ==
            if s == "" then Some(0)
            else if first < |s| && AllHex(s[first..]) && HexValue(s[first..]) < ULLONG then
              Some(Signed(if Start(s) > 0 && s[Start(s) - 1] == '-' then "-" else "", HexValue(s[first..])))
            else None
  {
    hide HexNibble, HexValue, CString, First, Start;
    var s := CString(text);
    var first := First(s);
    var end := HexEnd(s, first);
    if first < |s| && AllHex(s[first..]) {
      forall i | first <= i < |s|
        ensures HexNibble(s[i]) >= 0
      {
        assert s[first..][i - first] == s[i];
      }
      HexEndAt(s, first, |s|);
      assert s[first..|s|] == s[first..];
    } else if first < |s| {
      EndsEarly(s, first);
    }
  }

  lemma EndsEarly(s: string, first: nat)
    requires first < |s| && !AllHex(s[first..])
    ensures HexEnd(s, first) < |s|
  {
    hide HexNibble;
    var i :| 0 <= i < |s| - first && HexNibble(s[first..][i]) < 0;
    assert s[first + i] == s[first..][i];
  }

  /** The parts of a number text are the ones found. */
  lemma PartsFound(s: string, space: string, sign: string, prefix: string, digits: string, m: nat)
    requires NumberText(s, space, sign, prefix, digits, m)
    ensures AllHex(digits) && First(s) == |space + sign + prefix| && s[First(s)..] == digits && First(s) < |s|
    ensures Start(s) == |space + sign| && (Start(s) > 0 && s[Start(s) - 1] == '-' <==> sign == "-")
  {
    hide IsHexOf, HexNibble, AllHex, AllSpace, First, Start;
    HexValueExactly(digits, m);
    FirstChars(s, space, sign, prefix, digits);
    StartFound(s, space, sign);
    PrefixFound(s, space + sign, prefix, digits);
    assert s[|space + sign + prefix|..] == digits;
    if sign != "" {
      assert s[|space + sign| - 1] == s[|space|];
    }
  }

  lemma StartFound(s: string, space: string, sign: string)
    requires space <= s && AllSpace(space) && |space + sign| <= |s| && |space| < |s| && !IsSpace(s[|space|])
    requires Sign(sign) && (s[|space|] == '-' <==> sign == "-") && (s[|space|] == '+' <==> sign == "+")
    ensures Start(s) == |space + sign|
  {
    hide AllSpace;
    SkipAt(s, space, 0);
  }

  lemma PrefixFound(s: string, before: string, prefix: string, digits: string)
    requires s == before + prefix + digits && Prefix(prefix) && digits != "" && AllHex(digits) && Start(s) == |before|
    ensures First(s) == |before + prefix|
  {
    hide HexNibble, Start;
    var a := |before|;
    if prefix != "" {
      assert s[a] == '0' && s[a + 1] == prefix[1] && s[a + 2] == digits[0];
    } else if |digits| > 2 {
      assert s[a + 1] == digits[1] && HexNibble(digits[1]) >= 0;
      NoXDigit(digits[1]);
    }
  }

  lemma NoXDigit(c: char)
    requires HexNibble(c) >= 0
    ensures c != 'x' && c != 'X' && !IsSpace(c) && c != '-' && c != '+'
  {}

  lemma FirstChars(s: string, space: string, sign: string, prefix: string, digits: string)
    requires s == space + sign + prefix + digits && Sign(sign) && Prefix(prefix) && digits != "" && AllHex(digits)
    requires AllSpace(space)
    ensures space <= s && |space| < |s| && !IsSpace(s[|space|])
    ensures s[|space|] == '-' <==> sign == "-"
    ensures s[|space|] == '+' <==> sign == "+"
    ensures |space| > 0 ==> s[|space| - 1] != '-'
  {
    hide HexNibble;
    NoXDigit(digits[0]);
    var rest := sign + prefix + digits;
    assert s == space + rest && s[|space|] == rest[0];
    if |space| > 0 {
      assert s[|space| - 1] == space[|space| - 1];
    }
  }

  /** Every text read is one of those. */
  lemma PartsAre(s: string) returns (space: string, sign: string, prefix: string)
    requires First(s) < |s| && AllHex(s[First(s)..])
    ensures NumberText(s, space, sign, prefix, s[First(s)..], HexValue(s[First(s)..]))
    ensures sign == "-" <==> Start(s) > 0 && s[Start(s) - 1] == '-'
  {
    hide HexNibble, IsHexOf, HexValue, First, AllHex, Start;
    var from, start, first := SkipSpace(s, 0), Start(s), First(s);
    SignPart(s);
    PrefixPart(s);
    space, sign, prefix := s[..from], s[from..start], s[start..first];
    assert s == space + sign + prefix + s[first..];
    HexValueExactly(s[first..], HexValue(s[first..]));
  }

  lemma PrefixPart(s: string)
    ensures Start(s) <= First(s) && Prefix(s[Start(s)..First(s)])
  {
    hide HexNibble, Start;
    var start := Start(s);
    if First(s) == start + 2 {
      assert s[start..start + 2] == [s[start], s[start + 1]];
    }
  }

  /** Main result, exactly: a text reads as n if and only if it spells n from its first character to its last, or is
      empty and n is zero. */
  lemma HexNumberExactly(text: string, n: nat)
    ensures HexNumber(text) == Some(n) <==>
            var s := CString(text);
            (s == "" && n == 0) || SpellsNumber(s, n)
  {
    hide HexNumber, First, Start, NumberText, IsHexOf, CString, HexValue, HexNibble, AllHex;
    var s := CString(text);
    HexNumberIs(text);
    if s != "" && HexNumber(text) == Some(n) {
      var space, sign, prefix := PartsAre(s);
      assert SpellsNumber(s, n);
    }
    if SpellsNumber(s, n) {
      var space, sign, prefix, digits, m: nat :|
        NumberText(s, space, sign, prefix, digits, m) && m < ULLONG && n == Signed(sign, m);
      PartsFound(s, space, sign, prefix, digits, m);
      ValueOf(s, space, sign, prefix, digits, m);
    }
  }

  lemma ValueOf(s: string, space: string, sign: string, prefix: string, digits: string, m: nat)
    requires NumberText(s, space, sign, prefix, digits, m)
    ensures s != "" && AllHex(digits) && HexValue(digits) == m
  {
    hide IsHexOf, HexValue;
    HexValueExactly(digits, m);
  }

  /** The offset read from a configuration is n exactly when the text found spells n and n is an address. */
  lemma OffsetExactly(o: ParseOptions, st: Store, section: string, key: string, limit: nat, n: nat)
    requires 0 < n
    ensures ReadOffset(o, st, section, key, limit) == n <==>
            n < limit && exists text :: Finds(o, st, section, key, text) && SpellsNumber(CString(text), n)
  {
    hide HexNumber, SpellsNumber, Finds, CString, IniGetRaw;
    var raw := IniGetRaw(o, st, section, key, "");
    RawTextIs(o, st, section, key, "");
    HexNumberExactly(raw, n);
    NothingSpelled(n);
    if exists text :: Finds(o, st, section, key, text) && SpellsNumber(CString(text), n) {
      var text :| Finds(o, st, section, key, text) && SpellsNumber(CString(text), n);
      FindsOne(o, st, section, key, text, raw);
    }
  }

  lemma NothingSpelled(n: nat)
    ensures CString("") == "" && !SpellsNumber("", n)
  {
    hide IsHexOf;
  }

  // ---------------------------------------------------------------- switches

  predicate Zeros(s: string) {
    forall i :: 0 <= i < |s| ==> s[i] == '0'
  }

  /** s begins with white space, a sign and zeros, all optional, and then a digit that is not zero. */
  predicate NonZeroText(s: string, space: string, sign: string, zeros: string, d: char, rest: string) {
    s == space + sign + zeros + [d] + rest && AllSpace(space) && Sign(sign) && Zeros(zeros) && '1' <= d <= '9'
  }

  ghost predicate SwitchedOn(s: string) {
    exists space, sign, zeros, d, rest :: NonZeroText(s, space, sign, zeros, d, rest)
  }

  lemma {:induction false} NonZeroIs(s: string, i: nat) returns (k: nat)
    requires NonZeroFrom(s, i)
    ensures i <= k < |s| && Zeros(s[i..k]) && '1' <= s[k] <= '9'
    decreases |s| - i
  {
    if s[i] != '0' {
      k := i;
    } else {
      k := NonZeroIs(s, i + 1);
      assert s[i..k] == [s[i]] + s[i + 1..k];
    }
  }

  lemma {:induction false} NonZeroAt(s: string, i: nat, k: nat)
    requires i <= k < |s| && Zeros(s[i..k]) && '1' <= s[k] <= '9'
    ensures NonZeroFrom(s, i)
    decreases k - i
  {
    if i < k {
      assert s[i..k][0] == s[i] && s[i..k][1..] == s[i + 1..k];
      NonZeroAt(s, i + 1, k);
    }
  }

  lemma NonZeroParts(s: string, space: string, sign: string, zeros: string, d: char, rest: string)
    requires NonZeroText(s, space, sign, zeros, d, rest)
    ensures Start(s) == |space + sign|
    ensures var k := |space + sign + zeros|;
            k < |s| && s[k] == d && s[Start(s)..k] == zeros
  {
    var tail := sign + zeros + [d] + rest;
    assert s == space + tail && s[|space|] == tail[0];
    if zeros != "" {
      assert (zeros + [d] + rest)[0] == '0';
    } else {
      assert (zeros + [d] + rest)[0] == d;
    }
    SkipAt(s, space, 0);
  }

  /** A switch is on exactly when the text found begins with a number other than zero. */
  lemma EnabledExactly(o: ParseOptions, st: Store, section: string, key: string)
    ensures Enabled(o, st, section, key) <==>
            exists text :: Finds(o, st, section, key, text) && SwitchedOn(CString(text))
  {
    hide Finds, CString, IniGetRaw, SwitchedOn, NonZeroFrom;
    var raw := IniGetRaw(o, st, section, key, "");
    RawTextIs(o, st, section, key, "");
    OnExactly(CString(raw));
    NothingOn();
    if exists text :: Finds(o, st, section, key, text) && SwitchedOn(CString(text)) {
      var text :| Finds(o, st, section, key, text) && SwitchedOn(CString(text));
      FindsOne(o, st, section, key, text, raw);
    }
  }

  lemma NothingOn()
    ensures CString("") == "" && !SwitchedOn("")
  {}

  lemma OnExactly(s: string)
    ensures NonZeroFrom(s, Start(s)) <==> SwitchedOn(s)
  {
    hide NonZeroFrom;
    if NonZeroFrom(s, Start(s)) {
      var from, start := SkipSpace(s, 0), Start(s);
      var k := NonZeroIs(s, start);
      assert s == s[..from] + s[from..start] + s[start..k] + [s[k]] + s[k + 1..];
      assert NonZeroText(s, s[..from], s[from..start], s[start..k], s[k], s[k + 1..]);
    }
    if SwitchedOn(s) {
      var space, sign, zeros, d, rest :| NonZeroText(s, space, sign, zeros, d, rest);
      NonZeroParts(s, space, sign, zeros, d, rest);
      NonZeroAt(s, Start(s), |space + sign + zeros|);
    }
  }

  // ---------------------------------------------------------------- codes

  /** A text delivers these bytes: it is not empty, they are at most 255, and it spells their digits. */
  ghost predicate Delivers(text: string, bytes: seq<Byte>) {
    text != "" && |bytes| <= 255 && Spells(text, Nibbles(bytes))
  }

  /** The name a code key stands for: its text as C reads it, cut to what the buffer holds. */
  function NameIn(text: string): string {
    var s := CString(text);
    if |s| > 254 then s[..254] else s
  }

  /** The entry of that name in [PatchCodes] delivers these bytes. */
  ghost predicate NamedDelivers(o: ParseOptions, st: Store, name: string, bytes: seq<Byte>) {
    exists text :: Finds(o, st, "PatchCodes", name, text) && Delivers(text, bytes)
  }

  lemma RawDelivers(o: ParseOptions, st: Store, section: string, key: string, bytes: seq<Byte>)
    ensures Decode(IniGetRaw(o, st, section, key, ""), 255) == Some(bytes) <==>
            exists text :: Finds(o, st, section, key, text) && Delivers(text, bytes)
  {
    hide Decode, Finds, IniGetRaw, Spells, Nibbles;
    var raw := IniGetRaw(o, st, section, key, "");
    RawTextIs(o, st, section, key, "");
    DecodesIffSpells(raw, bytes, 255);
    if exists text :: Finds(o, st, section, key, text) && Delivers(text, bytes) {
      var text :| Finds(o, st, section, key, text) && Delivers(text, bytes);
      FindsOne(o, st, section, key, text, raw);
    }
  }

  /** A code key's text names an entry of [PatchCodes] that delivers the bytes, or, if that entry delivers none, the
      key's own text does. */
  ghost predicate Configured(o: ParseOptions, st: Store, section: string, key: string, bytes: seq<Byte>) {
    exists text :: && Finds(o, st, section, key, text) && NameIn(text) != ""
                   && (|| NamedDelivers(o, st, NameIn(text), bytes)
                       || (Delivers(text, bytes) && forall other :: !NamedDelivers(o, st, NameIn(text), other)))
  }

  /** The bytes resolved for a code key are exactly the configured ones. */
  lemma CodeExactly(o: ParseOptions, st: Store, section: string, key: string, bytes: seq<Byte>)
    ensures PatchCode(o, st, section, key) == Some(bytes) <==> Configured(o, st, section, key, bytes)
  {
    hide Decode, Finds, IniGetRaw, Delivers, NamedDelivers, NameIn;
    var raw := IniGetRaw(o, st, section, key, "");
    var name := PatchName(o, st, section, key);
    NameIs(o, st, section, key);
    RawTextIs(o, st, section, key, "");
    ByName(o, st, name, bytes);
    RawDelivers(o, st, section, key, bytes);
    if Decode(IniGetRaw(o, st, "PatchCodes", name, ""), 255).Some? {
      ByName(o, st, name, Decode(IniGetRaw(o, st, "PatchCodes", name, ""), 255).value);
    }
    forall other
      ensures NamedDelivers(o, st, name, other) ==>
                Decode(IniGetRaw(o, st, "PatchCodes", name, ""), 255) == Some(other)
    {
      ByName(o, st, name, other);
    }
    forall text | Finds(o, st, section, key, text)
      ensures text == raw
    {
      FindsOne(o, st, section, key, text, raw);
    }
  }

  lemma NameIs(o: ParseOptions, st: Store, section: string, key: string)
    ensures PatchName(o, st, section, key) == NameIn(IniGetRaw(o, st, section, key, ""))
    ensures NameIn("") == ""
  {
    hide IniGetRaw;
  }

  lemma ByName(o: ParseOptions, st: Store, name: string, bytes: seq<Byte>)
    ensures Decode(IniGetRaw(o, st, "PatchCodes", name, ""), 255) == Some(bytes) <==> NamedDelivers(o, st, name, bytes)
  {
    hide Decode, IniGetRaw, Finds, Delivers;
    RawDelivers(o, st, "PatchCodes", name, bytes);
  }

  /** Main result, exactly: a configuration asks for these bytes at this offset if and only if its switch is on, its
      offset text spells that offset, its code key stands for those bytes, and they are some and fit in the module. */
  lemma PlanExactly(o: ParseOptions, st: Store, keys: PatchKeys, moduleSize: nat, limit: nat, n: nat, bytes: seq<Byte>)
    requires moduleSize <= limit
    ensures PatchPlan(o, st, keys, moduleSize, limit) == Some(Plan(n, bytes)) <==>
            && (exists text :: Finds(o, st, keys.section, keys.enabled, text) && SwitchedOn(CString(text)))
            && (exists text :: Finds(o, st, keys.section, keys.offset, text) && SpellsNumber(CString(text), n))
            && Configured(o, st, keys.section, keys.code, bytes)
            && 0 < n && bytes != [] && n + |bytes| <= moduleSize
  {
    hide Finds, SwitchedOn, SpellsNumber, Configured, Enabled, ReadOffset, PatchCode, CString;
    EnabledExactly(o, st, keys.section, keys.enabled);
    if n > 0 {
      OffsetExactly(o, st, keys.section, keys.offset, limit, n);
    }
    CodeExactly(o, st, keys.section, keys.code, bytes);
  }
}
