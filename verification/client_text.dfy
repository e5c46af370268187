/** The texts that authvars_test/host/main.c prints and reads back: GUIDs (print_guid and
    get_guid, with its in-place removal of spaces) and escaped bytes (print_bytes). */
module ClientText {
  import opened Bytes
  import opened Guids

  // ---- hexadecimal numbers ----

  function HexChar(v: nat, upper: bool): char
    requires v < 16
  {
    if v < 10 then (48 + v) as char else if upper then (55 + v) as char else (87 + v) as char
  }

  function HexValue(c: char): Option<nat> {
    if '0' <= c <= '9' then Some(c as int - 48)
    else if 'A' <= c <= 'F' then Some(c as int - 55)
    else if 'a' <= c <= 'f' then Some(c as int - 87)
    else None
  }

  function Pow16(n: nat): (p: nat)
    ensures p > 0
  {
    if n == 0 then 1 else 16 * Pow16(n - 1)
  }

  /** printf's zero-padded %X or %x of a value that fits the width. */
  function PadHex(v: nat, width: nat, upper: bool): (t: string)
    requires v < Pow16(width)
    ensures |t| == width
  {
    if width == 0 then "" else PadHex(v / 16, width - 1, upper) + [HexChar(v % 16, upper)]
  }

  /** How many hexadecimal digits the text starts with. */
  function HexRun(t: string): (n: nat)
    ensures n <= |t|
  {
    if t == "" || HexValue(t[0]).None? then 0 else 1 + HexRun(t[1..])
  }

  predicate AllHex(t: string) { forall i :: 0 <= i < |t| ==> HexValue(t[i]).Some? }

  function HexNumber(t: string): nat
    requires AllHex(t)
  {
    if t == "" then 0 else 16 * HexNumber(t[..|t| - 1]) + HexValue(t[|t| - 1]).value
  }

  lemma {:induction false} HexRunIsHex(t: string)
    ensures AllHex(t[..HexRun(t)])
    ensures HexRun(t) < |t| ==> HexValue(t[HexRun(t)]).None?
  {
    if HexRun(t) == 0 {
    } else {
      HexRunIsHex(t[1..]);
      assert forall i :: 0 < i < HexRun(t) ==> t[..HexRun(t)][i] == t[1..][..HexRun(t) - 1][i - 1];
    }
  }

  lemma {:induction false} HexRunOf(digits: string, rest: string)
    requires AllHex(digits) && (rest == "" || HexValue(rest[0]).None?)
    ensures HexRun(digits + rest) == |digits|
  {
    if digits == "" {
      assert digits + rest == rest;
    } else {
      assert (digits + rest)[1..] == digits[1..] + rest;
      HexRunOf(digits[1..], rest);
    }
  }

  /** Padded hexadecimal of any width reads back as the number. */
  lemma {:induction false} PadHexReadsBack(v: nat, width: nat, upper: bool)
    requires v < Pow16(width)
    ensures AllHex(PadHex(v, width, upper)) && HexNumber(PadHex(v, width, upper)) == v
  {
    if width == 0 {
    } else {
      PadHexReadsBack(v / 16, width - 1, upper);
      HexDigit(v % 16, upper);
      DigitAppended(PadHex(v / 16, width - 1, upper), HexChar(v % 16, upper));
    }
    hide HexChar, HexValue, AllHex, HexNumber;
  }

  lemma DigitAppended(t: string, c: char)
    requires AllHex(t) && HexValue(c).Some?
    ensures AllHex(t + [c]) && HexNumber(t + [c]) == 16 * HexNumber(t) + HexValue(c).value
  {
    assert (t + [c])[..|t|] == t;
  }

  lemma HexDigit(v: nat, upper: bool)
    requires v < 16
    ensures HexValue(HexChar(v, upper)) == Some(v)
  {}

  /** Only digits of the asked case are printed. */
  lemma {:induction false} PadHexDigits(v: nat, width: nat, upper: bool)
    requires v < Pow16(width)
    ensures forall c <- PadHex(v, width, upper) :: '0' <= c <= '9' || if upper then 'A' <= c <= 'F' else 'a' <= c <= 'f'
  {
    if width == 0 {
    } else {
      PadHexDigits(v / 16, width - 1, upper);
    }
  }

  // ---- removal of spaces ----

  /** The characters before the terminator. */
  function CString(s: string): (r: string)
    ensures |r| <= |s| && r == s[..|r|] && '\0' !in r
    ensures |r| < |s| ==> s[|r|] == '\0'
  {
    if s == "" || s[0] == '\0' then "" else [s[0]] + CString(s[1..])
  }

  lemma CStringUnits(s: string)
    ensures forall j :: 0 <= j < |CString(s)| ==> s[j] == CString(s)[j] != '\0'
  {}

  function Strip(s: string): (r: string)
    ensures |r| <= |s|
  {
    if s == "" then "" else Kept(s[0]) + Strip(s[1..])
  }

  /** What one character contributes. */
  function Kept(c: char): string { if c == ' ' then "" else [c] }

  lemma StripCons(s: string)
    requires s != ""
    ensures Strip(s) == Kept(s[0]) + Strip(s[1..])
  {}

  lemma {:induction false} StripAppend(s: string, t: string)
    ensures Strip(s + t) == Strip(s) + Strip(t)
  {
    if s == "" {
      assert s + t == t && Strip(s) == "";
    } else {
      hide Strip, Kept;
      StripAppend(s[1..], t);
      StripCons(s);
      assert Strip(s + t) == Kept(s[0]) + Strip(s[1..] + t) by {
        StripCons(s + t);
        assert (s + t)[1..] == s[1..] + t;
      }
      Associative(Kept(s[0]), Strip(s[1..]), Strip(t));
    }
  }

  lemma {:induction false} StripNothing(s: string)
    requires ' ' !in s
    ensures Strip(s) == s
  {
    if s == "" {
    } else {
      StripNothing(s[1..]);
    }
  }

  lemma {:induction false} StripLeavesNone(s: string)
    ensures ' ' !in Strip(s)
  {
    if s == "" {
    } else {
      StripLeavesNone(s[1..]);
    }
  }

  /** A second pass changes nothing. */
  lemma StripTwice(s: string)
    ensures Strip(Strip(s)) == Strip(s)
  {
    StripLeavesNone(s);
    StripNothing(Strip(s));
  }

  /** The loop of get_guid, with both pointers in one buffer. The characters that are not
      spaces move to the front in order; what lies behind the new terminator is untouched. */
  method StripSpaces(str: array<char>)
    requires |CString(str[..])| < str.Length
    modifies str
    ensures var t := Strip(CString(old(str[..])));
            |t| < str.Length && str[..] == t + ['\0'] + old(str[..])[|t| + 1..]
    ensures CString(str[..]) == Strip(CString(old(str[..])))
  {
    ghost var before := str[..];
    ghost var s := CString(before);
    CStringUnits(before);
    var out := Compact(str, s);
    ghost var t := Strip(s);
    str[out] := '\0';
    CompactedIs(str[..], t, before);
    StripKeepsNonNul(s);
    CStringOf(t, before[|t| + 1..]);
  }

  /** The loop itself, on a buffer that starts with s and its terminator. */
  method Compact(str: array<char>, ghost s: string) returns (out: nat)
    requires |s| < str.Length && str[|s|] == '\0'
    requires forall j :: 0 <= j < |s| ==> str[j] == s[j] != '\0'
    modifies str
    ensures out == |Strip(s)| < str.Length
    ensures forall j :: 0 <= j < out ==> str[j] == Strip(s)[j]
    ensures forall j :: out <= j < str.Length ==> str[j] == old(str[j])
  {
    ghost var kept := "";
    assert Strip(s[..0]) == "";
    hide Strip, Kept;
    var input := 0;
    out := 0;
    while str[input] != '\0'
      invariant 0 <= out == |kept| <= input <= |s|
      invariant kept == Strip(s[..input])
      invariant forall j :: 0 <= j < out ==> str[j] == kept[j]
      invariant forall j :: out <= j < str.Length ==> str[j] == old(str[j])
      decreases |s| - input
    {
      assert str[input] == s[input];
      StripNext(s, input);
      if str[input] != ' ' {
        str[out] := str[input];
        out := out + 1;
        kept := kept + [s[input]];
      }
      input := input + 1;
    }
    assert s[..input] == s;
  }

  lemma CompactedIs(after: string, t: string, before: string)
    requires |t| < |before| == |after| && after[|t|] == '\0'
    requires forall j :: 0 <= j < |t| ==> after[j] == t[j]
    requires forall j :: |t| < j < |after| ==> after[j] == before[j]
    ensures after == t + ['\0'] + before[|t| + 1..]
  {}

  lemma StripNext(s: string, i: nat)
    requires i < |s|
    ensures Strip(s[..i + 1]) == if s[i] == ' ' then Strip(s[..i]) else Strip(s[..i]) + [s[i]]
  {
    assert s[..i + 1] == s[..i] + [s[i]];
    StripAppend(s[..i], [s[i]]);
    assert Strip([s[i]]) == Kept(s[i]);
  }

  lemma {:induction false} StripKeepsNonNul(s: string)
    requires '\0' !in s
    ensures '\0' !in Strip(s)
  {
    if s == "" {
    } else {
      StripKeepsNonNul(s[1..]);
    }
  }

  lemma {:induction false} CStringOf(t: string, rest: string)
    requires '\0' !in t
    ensures CString(t + ['\0'] + rest) == t
  {
    if t == "" {
    } else {
      assert (t + ['\0'] + rest)[1..] == t[1..] + ['\0'] + rest;
      CStringOf(t[1..], rest);
    }
  }

  // ---- GUID text ----

  /** A literal stretch of a format, followed by a padded hexadecimal field. */
  datatype Field = Field(literal: string, width: nat, value: nat)

  predicate ValidField(f: Field) { 0 < f.width && f.value < Pow16(f.width) && f.value < 0x1_0000_0000 }

  function Render(fields: seq<Field>): string
    requires forall i :: 0 <= i < |fields| ==> ValidField(fields[i])
  {
    if fields == [] then ""
    else
      assert ValidField(fields[0]);
      fields[0].literal + PadHex(fields[0].value, fields[0].width, true) + Render(fields[1..])
  }

  /** What %X takes from the front of a text: its value, and the text behind it. */
  datatype Scanned = Scanned(value: u32, rest: string)

  function SkipBlanks(t: string): (r: string)
    ensures |r| <= |t|
  {
    if t != "" && (t[0] == ' ' || 9 <= t[0] as int <= 13) then SkipBlanks(t[1..]) else t
  }

  predicate HasSign(t: string) { t != "" && (t[0] == '-' || t[0] == '+') }

  predicate HasPrefix(t: string) { |t| >= 2 && t[0] == '0' && (t[1] == 'x' || t[1] == 'X') }

  /** strtoul on 32 bits: too large a number saturates, a minus sign negates modulo 2^32. */
  function Converted(n: nat, negative: bool): u32 {
    if n > 0xFFFF_FFFF then 0xFFFF_FFFF else if negative then (0x1_0000_0000 - n) % 0x1_0000_0000 else n
  }

  /** The digits of a number, after an optional 0x; there must be one. */
  function ScanDigits(t: string, negative: bool): (r: Option<Scanned>)
    ensures r.Some? ==> |r.value.rest| < |t|
  {
    var u := if HasPrefix(t) then t[2..] else t;
    var n := HexRun(u);
    HexRunIsHex(u);
    if n == 0 then None else Some(Scanned(Converted(HexNumber(u[..n]), negative), u[n..]))
  }

  /** The conversion %X of section 7.21.6.2 of ISO/IEC 9899:2011: blanks and a sign may
      stand in front of the digits. */
  function ScanNumber(t: string): (r: Option<Scanned>)
    ensures r.Some? ==> |r.value.rest| < |t|
  {
    var u := SkipBlanks(t);
    if HasSign(u) then ScanDigits(u[1..], u[0] == '-') else ScanDigits(u, false)
  }

  /** A character that cannot continue a number. */
  predicate EndsNumber(c: char) { HexValue(c).None? && c != 'x' && c != 'X' }

  /** A 0x in front of the digits does not matter. */
  lemma DigitForms(hex: string, rest: string, negative: bool)
    requires hex != "" && AllHex(hex) && rest != "" && EndsNumber(rest[0])
    ensures ScanDigits(hex + rest, negative) == Some(Scanned(Converted(HexNumber(hex), negative), rest))
    ensures ScanDigits("0x" + (hex + rest), negative) == ScanDigits(hex + rest, negative)
  {
    var u := hex + rest;
    HexRunOf(hex, rest);
    assert u[..|hex|] == hex && u[|hex|..] == rest && ("0x" + u)[2..] == u;
    assert |u| >= 2 && u[1] == if |hex| >= 2 then hex[1] else rest[0];
    assert HexValue('x').None? && HexValue('X').None?;
    assert !HasPrefix(u);
  }

  /** The forms of a number: a 0x and a plus sign do not matter, a minus sign negates. */
  lemma NumberForms(hex: string, rest: string)
    requires hex != "" && AllHex(hex) && rest != "" && EndsNumber(rest[0]) && HexNumber(hex) < 0x1_0000_0000
    ensures var t := hex + rest;
            && ScanNumber(t) == ScanNumber("0x" + t) == ScanNumber("+" + t) == Some(Scanned(HexNumber(hex), rest))
            && ScanNumber("-" + t) == Some(Scanned((0x1_0000_0000 - HexNumber(hex)) % 0x1_0000_0000, rest))
  {
    hide ScanDigits, ScanNumber, HexNumber, AllHex, HexValue, EndsNumber;
    SignForms(hex, rest);
  }

  /** Numbers of more than 32 bits saturate, whatever their sign. */
  lemma LargeNumbers(hex: string, rest: string)
    requires AllHex(hex) && rest != "" && EndsNumber(rest[0]) && HexNumber(hex) >= 0x1_0000_0000
    ensures var t := hex + rest;
            ScanNumber(t) == ScanNumber("+" + t) == ScanNumber("-" + t) == Some(Scanned(0xFFFF_FFFF, rest))
  {
    hide ScanDigits, ScanNumber, AllHex, HexValue, EndsNumber;
    SignForms(hex, rest);
  }

  lemma SignForms(hex: string, rest: string)
    requires hex != "" && AllHex(hex) && rest != "" && EndsNumber(rest[0])
    ensures var t := hex + rest;
            && ScanNumber(t) == ScanNumber("0x" + t) == ScanNumber("+" + t)
               == Some(Scanned(Converted(HexNumber(hex), false), rest))
            && ScanNumber("-" + t) == Some(Scanned(Converted(HexNumber(hex), true), rest))
  {
    hide ScanDigits;
    var t := hex + rest;
    DigitForms(hex, rest, false);
    DigitForms(hex, rest, true);
    assert HexValue(t[0]).Some?;
    assert ("+" + t)[1..] == ("-" + t)[1..] == t;
  }

  /** Blanks in front of a number do not matter; anything else but a sign or a digit ends the
      scan, as do a sign and a 0x without digits. */
  lemma BlanksAndNothing(c: char, t: string)
    ensures c == ' ' || 9 <= c as int <= 13 ==> ScanNumber([c] + t) == ScanNumber(t)
    ensures c != ' ' && !(9 <= c as int <= 13) && c != '-' && c != '+' && HexValue(c).None? ==>
              && ScanNumber([c] + t) == None
              && ScanNumber("0x" + ([c] + t)) == ScanNumber("-" + ([c] + t)) == None
    ensures ScanNumber("") == None
  {
    var u := [c] + t;
    assert u[1..] == t && ("0x" + u)[2..] == u && ("-" + u)[1..] == u;
  }

  /** sscanf: literals must match, and each is followed by a number; at the first mismatch
      the remaining fields are not assigned. */
  function Scan(t: string, literals: seq<string>): (values: seq<u32>)
    ensures |values| <= |literals|
    decreases literals
  {
    if literals == [] || !(literals[0] <= t) then []
    else
      match ScanNumber(t[|literals[0]|..])
      case None => []
      case Some(number) => [number.value] + Scan(number.rest, literals[1..])
  }

  /** The fields print_guid prints. */
  function GuidFieldsOf(g: Guid): (fields: seq<Field>)
    ensures |fields| == 11
  {
    [Field("{ 0x", 8, g.data1), Field(", 0x", 4, g.data2), Field(", 0x", 4, g.data3),
     Field(", { 0x", 2, g.data4[0]), Field(", 0x", 2, g.data4[1]),
     Field(", 0x", 2, g.data4[2]), Field(", 0x", 2, g.data4[3]),
     Field(", 0x", 2, g.data4[4]), Field(", 0x", 2, g.data4[5]),
     Field(", 0x", 2, g.data4[6]), Field(", 0x", 2, g.data4[7])]
  }

  const SCAN_LITERALS: seq<string> := ["{0x", ",0x", ",0x", ",{0x", ",0x", ",0x", ",0x", ",0x", ",0x", ",0x", ",0x"]

  lemma GuidFieldsAreValid(g: Guid)
    ensures forall i :: 0 <= i < 11 ==> ValidField(GuidFieldsOf(g)[i])
  {
    assert Pow16(2) == 0x100 && Pow16(4) == 0x1_0000;
    assert Pow16(8) == 16 * (16 * (16 * (16 * Pow16(4))));
  }

  /** print_guid. */
  function PrintGuid(g: Guid): string {
    GuidFieldsAreValid(g);
    Render(GuidFieldsOf(g)) + " } }"
  }

  /** What sscanf stores through an unsigned pointer of this size: the low bytes. */
  function Stored(values: seq<u32>, i: nat, size: nat): (r: nat)
    requires size > 0
    ensures r < size
  {
    if i < |values| then values[i] % size else 0
  }

  // ---- what print_guid prints ----

  /** How long the fields are when they are printed. */
  function Length(fields: seq<Field>): nat {
    if fields == [] then 0 else |fields[0].literal| + fields[0].width + Length(fields[1..])
  }

  /** The text u stands in s from position at on. */
  predicate StandsAt(s: string, at: nat, u: string) { at + |u| <= |s| && s[at..at + |u|] == u }

  lemma StandsBehind(s: string, head: string, at: nat, u: string)
    requires StandsAt(s, at, u)
    ensures StandsAt(head + s, |head| + at, u)
  {}

  /** Where a field stands in the printed text. */
  lemma {:induction false} RenderAt(fields: seq<Field>, i: nat)
    requires i < |fields| && forall j :: 0 <= j < |fields| ==> ValidField(fields[j])
    ensures var f, at := fields[i], Length(fields[..i]);
            && ValidField(f) && StandsAt(Render(fields), at, f.literal)
            && StandsAt(Render(fields), at + |f.literal|, PadHex(f.value, f.width, true))
  {
    hide PadHex, StandsAt, Render, Length, Pow16;
    RenderFirst(fields);
    LengthFirst(fields, i);
    if i > 0 {
      var f, at, g := fields[0], Length(fields[1..][..i - 1]), fields[i];
      RenderAt(fields[1..], i - 1);
      var head := f.literal + PadHex(f.value, f.width, true);
      StandsBehind(Render(fields[1..]), head, at, g.literal);
      StandsBehind(Render(fields[1..]), head, at + |g.literal|, PadHex(g.value, g.width, true));
    }
  }

  lemma RenderFirst(fields: seq<Field>)
    requires fields != [] && forall j :: 0 <= j < |fields| ==> ValidField(fields[j])
    ensures var f := fields[0];
            && ValidField(f) && Render(fields) == f.literal + PadHex(f.value, f.width, true) + Render(fields[1..])
            && StandsAt(Render(fields), 0, f.literal)
            && StandsAt(Render(fields), |f.literal|, PadHex(f.value, f.width, true))
  {
    hide PadHex;
    assert ValidField(fields[0]);
  }

  lemma LengthFirst(fields: seq<Field>, i: nat)
    requires i < |fields|
    ensures Length(fields[..i])
            == if i == 0 then 0 else |fields[0].literal| + fields[0].width + Length(fields[1..][..i - 1])
  {
    if i > 0 {
      assert fields[..i][1..] == fields[1..][..i - 1];
    }
  }

  lemma {:induction false} RenderLength(fields: seq<Field>)
    requires forall j :: 0 <= j < |fields| ==> ValidField(fields[j])
    ensures |Render(fields)| == Length(fields)
  {
    if fields == [] {
    } else {
      RenderLength(fields[1..]);
    }
  }

  /** Where the fields of a printed GUID start, with their literals. */
  function StartOf(i: nat): nat {
    if i == 0 then 0 else if i == 1 then 12 else if i == 2 then 20 else if i == 3 then 28 else 36 + 6 * (i - 4)
  }

  lemma {:induction false} LengthNext(fields: seq<Field>, i: nat)
    requires i < |fields|
    ensures Length(fields[..i + 1]) == Length(fields[..i]) + |fields[i].literal| + fields[i].width
  {
    if i == 0 {
      assert fields[..1][1..] == [];
    } else {
      assert fields[..i + 1][1..] == fields[1..][..i] && fields[..i][1..] == fields[1..][..i - 1];
      LengthNext(fields[1..], i - 1);
    }
  }

  lemma {:induction false} GuidStarts(g: Guid, i: nat)
    requires i <= 11
    ensures Length(GuidFieldsOf(g)[..i]) == StartOf(i)
  {
    if i > 0 {
      hide Length;
      GuidStarts(g, i - 1);
      LengthNext(GuidFieldsOf(g), i - 1);
    }
  }

  /** A field of the printed GUID is where its start says, and digits of its width follow. */
  lemma FieldStands(g: Guid, i: nat)
    requires i < 11
    ensures var f := GuidFieldsOf(g)[i];
            && ValidField(f) && StandsAt(PrintGuid(g), StartOf(i), f.literal)
            && StandsAt(PrintGuid(g), StartOf(i) + |f.literal|, PadHex(f.value, f.width, true))
  {
    hide GuidFieldsOf, Length, PadHex, Render, StartOf;
    GuidFieldsAreValid(g);
    GuidStarts(g, i);
    RenderAt(GuidFieldsOf(g), i);
  }

  lemma Powers()
    ensures Pow16(2) == 0x100 && Pow16(4) == 0x1_0000 && Pow16(8) == 0x1_0000_0000
  {
    assert Pow16(8) == 16 * (16 * (16 * (16 * Pow16(4))));
  }

  /** The printed text: 82 characters, with every field at its place, padded with zeros. */
  lemma GuidLayout(g: Guid)
    ensures Pow16(2) == 0x100 && Pow16(4) == 0x1_0000 && Pow16(8) == 0x1_0000_0000
    ensures var t := PrintGuid(g);
            && |t| == 82
            && StandsAt(t, 0, "{ 0x") && StandsAt(t, 4, PadHex(g.data1, 8, true))
            && StandsAt(t, 12, ", 0x") && StandsAt(t, 16, PadHex(g.data2, 4, true))
            && StandsAt(t, 20, ", 0x") && StandsAt(t, 24, PadHex(g.data3, 4, true))
            && StandsAt(t, 28, ", { 0x") && StandsAt(t, 34, PadHex(g.data4[0], 2, true))
            && (forall i :: 1 <= i < 8 ==> StandsAt(t, 30 + 6 * i, ", 0x")
                                           && StandsAt(t, 34 + 6 * i, PadHex(g.data4[i], 2, true)))
            && StandsAt(t, 78, " } }")
  {
    hide PadHex, Render, Pow16, PrintGuid, StandsAt;
    Powers();
    FieldStands(g, 0);
    FieldStands(g, 1);
    FieldStands(g, 2);
    FieldStands(g, 3);
    forall i | 1 <= i < 8
      ensures StandsAt(PrintGuid(g), 30 + 6 * i, ", 0x")
      ensures StandsAt(PrintGuid(g), 34 + 6 * i, PadHex(g.data4[i], 2, true))
    {
      FieldStands(g, i + 3);
      ByteField(g, i);
    }
    GuidEnds(g);
  }

  lemma ByteField(g: Guid, i: nat)
    requires 1 <= i < 8
    ensures GuidFieldsOf(g)[i + 3] == Field(", 0x", 2, g.data4[i])
  {}

  lemma GuidEnds(g: Guid)
    ensures |PrintGuid(g)| == 82 && StandsAt(PrintGuid(g), 78, " } }")
  {
    hide GuidFieldsOf, PadHex;
    GuidFieldsAreValid(g);
    GuidStarts(g, 11);
    RenderLength(GuidFieldsOf(g));
    assert GuidFieldsOf(g)[..11] == GuidFieldsOf(g);
  }

  /** No GUID is printed with a lower-case digit. */
  lemma {:induction false} RenderUpperCase(fields: seq<Field>)
    requires forall j :: 0 <= j < |fields| ==> ValidField(fields[j])
    requires forall j :: 0 <= j < |fields| ==> forall c <- fields[j].literal :: !('a' <= c <= 'f')
    ensures forall c <- Render(fields) :: !('a' <= c <= 'f')
  {
    if fields == [] {
    } else {
      PadHexDigits(fields[0].value, fields[0].width, true);
      RenderUpperCase(fields[1..]);
    }
  }

  lemma GuidUpperCase(g: Guid)
    ensures forall c <- PrintGuid(g) :: !('a' <= c <= 'f')
  {
    GuidFieldsAreValid(g);
    RenderUpperCase(GuidFieldsOf(g));
  }

  /** A zeroed GUID, after sscanf has assigned the fields it got to. */
  function GuidOf(v: seq<u32>): Guid {
    GuidFields(Stored(v, 0, 0x1_0000_0000), Stored(v, 1, 0x1_0000), Stored(v, 2, 0x1_0000),
               [Stored(v, 3, 0x100), Stored(v, 4, 0x100), Stored(v, 5, 0x100), Stored(v, 6, 0x100),
                Stored(v, 7, 0x100), Stored(v, 8, 0x100), Stored(v, 9, 0x100), Stored(v, 10, 0x100)])
  }

  /** get_guid: spaces are removed, then eleven fields are scanned. */
  function ParseGuid(t: string): Guid { GuidOf(Scan(Strip(t), SCAN_LITERALS)) }

  /** What the scan does not come to stays zero, and a long number leaves its low bytes. */
  lemma PartialText()
    ensures GuidOf([]) == EMPTY_GUID
    ensures GuidOf([0x12, 0x1_2345]) == EMPTY_GUID.(data1 := 0x12, data2 := 0x2345)
    ensures GuidOf([0x12, 0x1_2345, 0xABCDE, 0x1FF])
            == GuidFields(0x12, 0x2345, 0xBCDE, [0xFF, 0, 0, 0, 0, 0, 0, 0])
  {}

  function Stripped(fields: seq<Field>): (r: seq<Field>)
    ensures |r| == |fields|
    ensures forall i :: 0 <= i < |r| ==> r[i] == fields[i].(literal := Strip(fields[i].literal))
  {
    seq(|fields|, i requires 0 <= i < |fields| => fields[i].(literal := Strip(fields[i].literal)))
  }

  lemma {:induction false} StripRender(fields: seq<Field>)
    requires forall i :: 0 <= i < |fields| ==> ValidField(fields[i])
    ensures Strip(Render(fields)) == Render(Stripped(fields))
  {
    if fields == [] {
    } else {
      var f := fields[0];
      var hex := PadHex(f.value, f.width, true);
      StripAppend(f.literal + hex, Render(fields[1..]));
      StripAppend(f.literal, hex);
      PadHexReadsBack(f.value, f.width, true);
      StripNothing(hex) by { assert HexValue(' ').None?; }
      StripRender(fields[1..]);
      assert Stripped(fields)[1..] == Stripped(fields[1..]);
    }
  }

  function Literals(fields: seq<Field>): (r: seq<string>)
    ensures |r| == |fields| && forall i :: 0 <= i < |r| ==> r[i] == fields[i].literal
  {
    seq(|fields|, i requires 0 <= i < |fields| => fields[i].literal)
  }

  function Values(fields: seq<Field>): (r: seq<nat>)
    ensures |r| == |fields| && forall i :: 0 <= i < |r| ==> r[i] == fields[i].value
  {
    seq(|fields|, i requires 0 <= i < |fields| => fields[i].value)
  }

  /** A field that is matched gives its value, and the scan goes on behind it. */
  lemma ScanField(literal: string, hex: string, rest: string, literals: seq<string>)
    requires literals != [] && literals[0] == literal
    requires hex != "" && AllHex(hex) && rest != "" && EndsNumber(rest[0]) && HexNumber(hex) < 0x1_0000_0000
    ensures Scan(literal + hex + rest, literals) == [HexNumber(hex)] + Scan(rest, literals[1..])
  {
    hide ScanNumber, HexNumber, AllHex, HexValue, EndsNumber;
    var t, u := literal + hex + rest, hex + rest;
    Associative(literal, hex, rest);
    assert t == literal + u && t[|literal|..] == u;
    NumberForms(hex, rest);
  }

  ghost predicate Separated(fields: seq<Field>) {
    forall i :: 0 <= i < |fields| ==>
      ValidField(fields[i]) && fields[i].literal != "" && EndsNumber(fields[i].literal[0])
  }

  /** A rendered text scans back to its values if every literal, and what follows the
      last field, starts with a character that cannot continue a number. Literals that are
      not found behind the last field assign nothing. */
  lemma {:induction false} ScanRender(fields: seq<Field>, tail: string, more: seq<string>)
    requires Separated(fields) && tail != "" && EndsNumber(tail[0]) && (more == [] || !(more[0] <= tail))
    ensures Scan(Render(fields) + tail, Literals(fields) + more) == Values(fields)
  {
    hide *;
    if fields != [] {
      var f := fields[0];
      SeparatedFields(fields);
      var hex, rest := PadHex(f.value, f.width, true), Render(fields[1..]) + tail;
      RenderCons(fields, tail);
      PadHexReadsBack(f.value, f.width, true);
      RestStartsPlain(fields[1..], tail);
      FieldsCons(fields);
      assert (Literals(fields) + more)[1..] == Literals(fields[1..]) + more;
      ScanRender(fields[1..], tail, more);
      ScanField(f.literal, hex, rest, Literals(fields) + more);
    } else {
      ScanNothing(fields, tail, more);
    }
  }

  lemma SeparatedFields(fields: seq<Field>)
    requires Separated(fields) && fields != []
    ensures forall i :: 0 <= i < |fields| ==> ValidField(fields[i])
    ensures Separated(fields[1..]) && 0 < fields[0].width && fields[0].value < Pow16(fields[0].width)
    ensures fields[0].value < 0x1_0000_0000
  {
    assert ValidField(fields[0]);
  }

  lemma ScanNothing(fields: seq<Field>, tail: string, more: seq<string>)
    requires fields == [] && (more == [] || !(more[0] <= tail))
    ensures Scan(Render(fields) + tail, Literals(fields) + more) == Values(fields)
  {
    assert Literals(fields) + more == more && Values(fields) == [] && Render(fields) + tail == tail;
  }

  lemma FieldsCons(fields: seq<Field>)
    requires fields != []
    ensures Literals(fields) != [] && Literals(fields)[0] == fields[0].literal
    ensures Literals(fields)[1..] == Literals(fields[1..])
    ensures Values(fields) == [fields[0].value] + Values(fields[1..])
  {}

  lemma RenderCons(fields: seq<Field>, tail: string)
    requires fields != [] && forall i :: 0 <= i < |fields| ==> ValidField(fields[i])
    ensures ValidField(fields[0])
    ensures Render(fields) + tail
            == fields[0].literal + PadHex(fields[0].value, fields[0].width, true) + (Render(fields[1..]) + tail)
  {
    assert ValidField(fields[0]);
  }

  lemma RestStartsPlain(fields: seq<Field>, tail: string)
    requires Separated(fields) && tail != "" && EndsNumber(tail[0])
    ensures Render(fields) + tail != "" && EndsNumber((Render(fields) + tail)[0])
  {}

  /** Every GUID that print_guid prints is the GUID that get_guid reads. */
  lemma GuidReadsBack(g: Guid)
    ensures ParseGuid(PrintGuid(g)) == g
  {
    GuidScansBack(g);
    GuidValues(g);
    hide Scan, Strip, PrintGuid, Values, GuidFieldsOf;
  }

  lemma GuidValues(g: Guid)
    ensures Values(GuidFieldsOf(g))
            == [g.data1, g.data2, g.data3,
                g.data4[0], g.data4[1], g.data4[2], g.data4[3], g.data4[4], g.data4[5], g.data4[6], g.data4[7]]
    ensures g.data4 == [g.data4[0], g.data4[1], g.data4[2], g.data4[3], g.data4[4], g.data4[5], g.data4[6], g.data4[7]]
  {}

  lemma GuidScansBack(g: Guid)
    ensures Scan(Strip(PrintGuid(g)), SCAN_LITERALS) == Values(GuidFieldsOf(g))
  {
    hide Scan, Strip, Render, Values, Literals, GuidFieldsOf, Stripped;
    var fields := GuidFieldsOf(g);
    var stripped := Stripped(fields);
    GuidFieldsAreValid(g);
    StripAppend(Render(fields), " } }");
    StripRender(fields);
    StripLiterals(g);
    ScanLiteralsSeparate(stripped);
    ScanRender(stripped, "}}", []);
    assert SCAN_LITERALS + [] == SCAN_LITERALS;
    assert Values(stripped) == Values(fields);
  }

  lemma ScanLiteralsSeparate(fields: seq<Field>)
    requires Literals(fields) == SCAN_LITERALS && forall i :: 0 <= i < |fields| ==> ValidField(fields[i])
    ensures Separated(fields)
  {}

  /** Without their spaces, the printed literals are those that get_guid scans for. */
  lemma StripLiterals(g: Guid)
    ensures Literals(Stripped(GuidFieldsOf(g))) == SCAN_LITERALS && Strip(" } }") == "}}"
  {
    hide Strip;
    StripOneSpace("{", "0x");
    StripOneSpace(",", "0x");
    StripTwoSpaces(",", "{", "0x");
    StripTwoSpaces("", "}", "}");
    JoinLiterals();
    var r := Literals(Stripped(GuidFieldsOf(g)));
    assert forall i :: 0 <= i < 11 ==> r[i] == Strip(GuidFieldsOf(g)[i].literal);
  }

  lemma JoinLiterals()
    ensures "{" + " " + "0x" == "{ 0x" && "," + " " + "0x" == ", 0x"
    ensures "," + " " + "{" + " " + "0x" == ", { 0x" && "" + " " + "}" + " " + "}" == " } }"
    ensures "{" + "0x" == "{0x" && "," + "0x" == ",0x" && "," + "{" + "0x" == ",{0x" && "" + "}" + "}" == "}}"
  {}

  lemma StripOneSpace(a: string, b: string)
    requires ' ' !in a && ' ' !in b
    ensures Strip(a + " " + b) == a + b
  {
    hide Strip;
    StripBlank();
    StripAppend(a + " ", b);
    StripAppend(a, " ");
    StripNothing(a);
    StripNothing(b);
  }

  lemma StripTwoSpaces(a: string, b: string, c: string)
    requires ' ' !in a && ' ' !in b && ' ' !in c
    ensures Strip(a + " " + b + " " + c) == a + b + c
  {
    hide Strip;
    StripBlank();
    StripOneSpace(a, b);
    StripAppend(a + " " + b + " ", c);
    StripAppend(a + " " + b, " ");
    StripNothing(c);
  }

  lemma StripBlank()
    ensures Strip(" ") == ""
  {}

  /** get_guid: the argument is compacted in place, then scanned. */
  method GetGuid(str: array<char>) returns (guid: Guid)
    requires |CString(str[..])| < str.Length
    modifies str
    ensures guid == ParseGuid(CString(old(str[..])))
  {
    ghost var t := CString(str[..]);
    StripSpaces(str);
    StripTwice(t);
    guid := ParseGuid(CString(str[..]));
  }

  // ---- escaped bytes ----

  function Escape(data: seq<u8>): string
    ensures |Escape(data)| == 4 * |data|
  {
    if data == [] then ""
    else
      assert Pow16(2) == 0x100;
      Escape(data[..|data| - 1]) + "\\x" + PadHex(data[|data| - 1], 2, false)
  }

  /** The \xHH escapes as the shell's printf "%b" reads them: one or two digits; other
      characters stand for themselves. */
  function Unescape(t: string): seq<u8> {
    if t == "" then []
    else if |t| >= 3 && t[0] == '\\' && t[1] == 'x' && HexValue(t[2]).Some? then
      if |t| >= 4 && HexValue(t[3]).Some? then [16 * HexValue(t[2]).value + HexValue(t[3]).value] + Unescape(t[4..])
      else [HexValue(t[2]).value] + Unescape(t[3..])
    else [t[0] as int % 0x100] + Unescape(t[1..])
  }

  /** The loop of print_bytes. */
  method EscapeBytes(data: array<u8>) returns (text: string)
    ensures text == Escape(data[..])
  {
    text := "";
    var i := 0;
    assert Pow16(2) == 0x100;
    while i < data.Length
      invariant 0 <= i <= data.Length
      invariant text == Escape(data[..i])
    {
      text := text + "\\x" + PadHex(data[i], 2, false);
      assert data[..i + 1][..i] == data[..i];
      i := i + 1;
    }
    assert data[..data.Length] == data[..];
  }

  lemma {:induction false} EscapeCons(b: u8, data: seq<u8>)
    ensures Pow16(2) == 0x100
    ensures Escape([b] + data) == "\\x" + PadHex(b, 2, false) + Escape(data)
  {
    hide PadHex;
    assert Pow16(2) == 0x100;
    if data == [] {
      assert [b] + data == [b] && [b][..0] == [];
    } else {
      var n := |data|;
      EscapeCons(b, data[..n - 1]);
      assert ([b] + data)[..n] == [b] + data[..n - 1];
      var last := "\\x" + PadHex(data[n - 1], 2, false);
      Associative("\\x" + PadHex(b, 2, false), Escape(data[..n - 1]), last);
      assert Escape([b] + data) == Escape([b] + data[..n - 1]) + last;
    }
  }

  /** The escape of every byte is in its place: a backslash, an x and two lower-case digits. */
  lemma {:induction false} EscapeLayout(data: seq<u8>, i: nat)
    requires i < |data|
    ensures Pow16(2) == 0x100
    ensures StandsAt(Escape(data), 4 * i, "\\x") && StandsAt(Escape(data), 4 * i + 2, PadHex(data[i], 2, false))
    decreases |data|
  {
    assert Pow16(2) == 0x100;
    hide PadHex, Pow16;
    var n := |data| - 1;
    assert Escape(data) == Escape(data[..n]) + "\\x" + PadHex(data[n], 2, false);
    if i < n {
      EscapeLayout(data[..n], i);
      assert Escape(data)[4 * i..4 * i + 2] == Escape(data[..n])[4 * i..4 * i + 2];
      assert Escape(data)[4 * i + 2..4 * i + 4] == Escape(data[..n])[4 * i + 2..4 * i + 4];
    }
  }

  lemma {:induction false} EscapeLowerCase(data: seq<u8>)
    ensures forall c <- Escape(data) :: !('A' <= c <= 'F')
    ensures Escape([0xAB, 0x0C]) == "\\xab\\x0c"
  {
    assert Pow16(2) == 0x100;
    EscapeExample();
    if data != [] {
      EscapeLowerCase(data[..|data| - 1]);
      PadHexDigits(data[|data| - 1], 2, false);
    }
  }

  lemma EscapeExample()
    ensures Escape([0xAB, 0x0C]) == "\\xab\\x0c"
  {
    assert Pow16(2) == 0x100;
    var d := [0xAB, 0x0C];
    assert d[..1] == [0xAB] && d[..1][..0] == [];
    assert PadHex(0xAB, 2, false) == "ab" && PadHex(0x0C, 2, false) == "0c";
  }

  /** Reading the printed escapes back gives the bytes of the variable. */
  lemma {:induction false} EscapedBytesReadBack(data: seq<u8>)
    ensures Unescape(Escape(data)) == data
  {
    if data == [] {
    } else {
      var b := data[0];
      EscapeCons(b, data[1..]);
      assert data == [b] + data[1..];
      PadHexReadsBack(b, 2, false);
      var hex, t := PadHex(b, 2, false), Escape(data);
      assert t == "\\x" + hex + Escape(data[1..]);
      assert t[2] == hex[0] && t[3] == hex[1] && t[4..] == Escape(data[1..]);
      assert HexNumber(hex) == 16 * HexValue(hex[0]).value + HexValue(hex[1]).value by {
        assert hex[..1] == [hex[0]] && hex[..1][..0] == "";
        assert HexNumber(hex[..1]) == HexValue(hex[0]).value;
      }
      EscapedBytesReadBack(data[1..]);
    }
  }
}
