/** Manual pairing codes (section 5.1.4 of the Matter Core Specification; internal/commissioning/payload.go). */
module ManualCode {
  import opened Bytes
  import opened Decimal
  import opened SetupPayload
  import Verhoeff

  // ----- the text of a payload ------------------------------------------------------------

  function ShortDiscriminator(p: Payload): byte {
    p.discriminator / 0x100
  }

  /** The VID/PID flag in bit 2 over the two high bits of the short discriminator. */
  function FirstDigit(p: Payload): nat {
    Or(if p.flow == CUSTOM_FLOW then 4 else 0, ShortDiscriminator(p) / 4, 8)
  }

  /** All digits but the check digit. */
  function Body(p: Payload): (s: string)
    ensures AllDigits(s)
  {
    Format(FirstDigit(p))
    + Pad(ShortDiscriminator(p) % 4 * 0x4000 + p.passcode % 0x4000, 5)
    + Pad(p.passcode / 0x4000 % 0x2000, 4)
    + if p.flow == CUSTOM_FLOW then Pad(p.vendorID, 5) + Pad(p.productID, 5) else []
  }

  function ManualText(p: Payload): Result<string> {
    if p.passcode > 0x7FF_FFFF then Err(PasscodeTooLarge)
    else Ok(Body(p) + [DigitChar(Verhoeff.CheckDigit(Body(p)))])
  }

  // ----- reading a text -----------------------------------------------------------------------

  /** `s` without the character `c`. */
  function Without(s: string, c: char): string {
    if s == [] then []
    else if s[0] == c then Without(s[1..], c)
    else [s[0]] + Without(s[1..], c)
  }

  function Stripped(typed: string): string {
    Without(Without(typed, '-'), ' ')
  }

  /** The payload that the digit groups of a code spell; the identifiers are there in a long code. */
  function Assembled(first: nat, middle: nat, high: nat, ids: Option<(nat, nat)>): Result<Payload>
    requires first < 10 && high < 10_000
  {
    var discriminator := (first % 4 * 4 + middle / 0x4000 % 4) * 0x100;
    var passcode := high * 0x4000 + middle % 0x4000;
    if first / 4 % 2 == 1 && ids.None? then Err(IndexPanic)
    else if !Allowed(passcode) then Err(DisallowedPasscode)
    else if first / 4 % 2 == 1 then
      Ok(Payload(0, ids.value.0 % 0x1_0000, ids.value.1 % 0x1_0000, CUSTOM_FLOW, 0, discriminator, passcode))
    else Ok(Payload(0, 0, 0, 0, 0, discriminator, passcode))
  }

  /** The payload in a code whose length, characters and check digit are right. */
  function PayloadIn(code: string): Result<Payload>
    requires AllDigits(code) && (|code| == 11 || |code| == 21)
  {
    FourDigits(code[6..10]);
    Assembled(DigitValue(code[0]), Parse(code[1..6]), Parse(code[6..10]),
              if |code| == 21 then Some((Parse(code[10..15]), Parse(code[15..20]))) else None)
  }

  function FromManualText(typed: string): Result<Payload> {
    var code := Stripped(typed);
    if |code| != 11 && |code| != 21 then Err(WrongLength)
    else if !AllDigits(code) then Err(NotADigit)
    else if !Verhoeff.Valid(code) then Err(WrongCheckDigit)
    else PayloadIn(code)
  }

  lemma {:induction false} ParseBound(s: string)
    requires AllDigits(s)
    ensures Parse(s) < Pow10(|s|)
  {
    if s != [] { ParseBound(s[..|s| - 1]); }
  }

  lemma FourDigits(s: string)
    requires AllDigits(s) && |s| == 4
    ensures Parse(s) < 10_000
  {
    ParseBound(s);
    assert Pow10(4) == 10_000;
  }

  lemma AtMostFiveDigits(s: string)
    requires AllDigits(s) && |s| <= 5
    ensures Parse(s) < 100_000
  {
    ParseBound(s);
    assert Pow10(0) == 1 && Pow10(1) == 10 && Pow10(2) == 100 && Pow10(3) == 1_000;
    assert Pow10(4) == 10_000 && Pow10(5) == 100_000;
  }

  // ----- round trip ------------------------------------------------------------------------------

  lemma PaddedNumbers(n: nat)
    ensures n < 100_000 ==> |Pad(n, 5)| == 5 && Parse(Pad(n, 5)) == n
    ensures n < 10_000 ==> |Pad(n, 4)| == 4 && Parse(Pad(n, 4)) == n
  {
    assert Pow10(4) == 10_000 && Pow10(5) == 100_000;
    if n < 100_000 { ParsePad(n, 5); }
    if n < 10_000 { ParsePad(n, 4); }
  }

  lemma FirstDigitIsSum(p: Payload)
    requires p.discriminator <= 0xFFF
    ensures FirstDigit(p) == (if p.flow == CUSTOM_FLOW then 4 else 0) + p.discriminator / 0x400
  {
    WidthTable();
    OrIsSum(if p.flow == CUSTOM_FLOW then 1 else 0, ShortDiscriminator(p) / 4, 2, 8);
  }

  /** Cutting a code where the digit groups meet. */
  lemma Groups(a: string, b: string, c: string, d: string, e: string, check: string)
    requires |a| == 1 && |b| == 5 && |c| == 4 && ((|d| == 5 && |e| == 5) || (d == [] && e == []))
    ensures var s := a + b + c + (d + e) + check;
            && s[0] == a[0] && s[1..6] == b && s[6..10] == c
            && (d != [] ==> s[10..15] == d && s[15..20] == e)
  {
  }

  lemma BodyLength(p: Payload)
    requires p.discriminator <= 0xFFF
    ensures |Body(p)| == if p.flow == CUSTOM_FLOW then 20 else 10
    ensures |Format(FirstDigit(p))| == 1
  {
    hide Pad, Parse, Or;
    FirstDigitIsSum(p);
    PaddedNumbers(ShortDiscriminator(p) % 4 * 0x4000 + p.passcode % 0x4000);
    PaddedNumbers(p.passcode / 0x4000 % 0x2000);
    PaddedNumbers(p.vendorID);
    PaddedNumbers(p.productID);
  }

  /** What a manual code keeps of a payload. */
  function Kept(p: Payload): Payload {
    if p.flow == CUSTOM_FLOW then
      Payload(0, p.vendorID, p.productID, CUSTOM_FLOW, 0, p.discriminator / 0x100 * 0x100, p.passcode)
    else
      Payload(0, 0, 0, 0, 0, p.discriminator / 0x100 * 0x100, p.passcode)
  }

  /** The digit groups of a printed code spell the numbers that were printed. */
  lemma BodyGroups(p: Payload, code: string, check: char, middle: nat, high: nat)
    requires p.discriminator <= 0xFFF && IsDigit(check) && code == Body(p) + [check]
    requires middle == ShortDiscriminator(p) % 4 * 0x4000 + p.passcode % 0x4000
    requires high == p.passcode / 0x4000 % 0x2000
    ensures AllDigits(code) && |code| == if p.flow == CUSTOM_FLOW then 21 else 11
    ensures DigitValue(code[0]) == FirstDigit(p) && Parse(code[1..6]) == middle && Parse(code[6..10]) == high
    ensures p.flow == CUSTOM_FLOW ==> Parse(code[10..15]) == p.vendorID && Parse(code[15..20]) == p.productID
  {
    hide Pad, Parse, Or, IsDigit, FirstDigit;
    BodyLength(p);
    PaddedNumbers(middle);
    PaddedNumbers(high);
    PaddedNumbers(p.vendorID);
    PaddedNumbers(p.productID);
    OneDigit(FirstDigit(p));
    var custom := p.flow == CUSTOM_FLOW;
    var vendor, product := if custom then Pad(p.vendorID, 5) else [], if custom then Pad(p.productID, 5) else [];
    Groups(Format(FirstDigit(p)), Pad(middle, 5), Pad(high, 4), vendor, product, [check]);
    assert vendor + product == if custom then Pad(p.vendorID, 5) + Pad(p.productID, 5) else [];
  }

  lemma OneDigit(n: nat)
    requires |Format(n)| == 1
    ensures DigitValue(Format(n)[0]) == n
  {
    ParseFormat(n);
    assert Format(n)[..0] == [];
  }

  lemma AssembledKept(p: Payload, middle: nat, high: nat)
    requires p.passcode <= 0x7FF_FFFF && p.discriminator <= 0xFFF
    requires middle == ShortDiscriminator(p) % 4 * 0x4000 + p.passcode % 0x4000
    requires high == p.passcode / 0x4000 % 0x2000
    ensures FirstDigit(p) < 10
    ensures Assembled(FirstDigit(p), middle, high,
                      if p.flow == CUSTOM_FLOW then Some((p.vendorID, p.productID)) else None)
         == if Allowed(p.passcode) then Ok(Kept(p)) else Err(DisallowedPasscode)
  {
    hide Allowed, Or;
    FirstDigitIsSum(p);
    Regrouped(p.discriminator, p.passcode);
  }

  lemma BodyPayload(p: Payload, check: char)
    requires p.passcode <= 0x7FF_FFFF && p.discriminator <= 0xFFF && IsDigit(check)
    ensures |Body(p) + [check]| == if p.flow == CUSTOM_FLOW then 21 else 11
    ensures PayloadIn(Body(p) + [check])
         == if Allowed(p.passcode) then Ok(Kept(p)) else Err(DisallowedPasscode)
  {
    hide Allowed, Parse, IsDigit, Assembled, FirstDigit, Body, Kept;
    var middle, high := ShortDiscriminator(p) % 4 * 0x4000 + p.passcode % 0x4000, p.passcode / 0x4000 % 0x2000;
    BodyGroups(p, Body(p) + [check], check, middle, high);
    AssembledKept(p, middle, high);
  }

  lemma Regrouped(discriminator: u16, passcode: u32)
    requires passcode <= 0x7FF_FFFF && discriminator <= 0xFFF
    ensures var short := discriminator / 0x100;
            var middle, high := short % 4 * 0x4000 + passcode % 0x4000, passcode / 0x4000 % 0x2000;
            && (discriminator / 0x400 % 4 * 4 + middle / 0x4000 % 4) * 0x100 == discriminator / 0x100 * 0x100
            && high * 0x4000 + middle % 0x4000 == passcode
  {
    var short := discriminator / 0x100;
    LowBits(short % 4, passcode % 0x4000);
    assert discriminator / 0x400 == short / 4;
  }

  lemma LowBits(q: nat, low: nat)
    requires low < 0x4000
    ensures (q * 0x4000 + low) / 0x4000 == q && (q * 0x4000 + low) % 0x4000 == low
  {
  }

  /** A printed code reads back, however it is broken up by dashes and blanks when typed. */
  lemma ManualRoundTrip(p: Payload, typed: string)
    requires p.passcode <= 0x7FF_FFFF && p.discriminator <= 0xFFF
    requires Stripped(typed) == ManualText(p).value
    ensures |ManualText(p).value| == if p.flow == CUSTOM_FLOW then 21 else 11
    ensures FromManualText(typed) == if Allowed(p.passcode) then Ok(Kept(p)) else Err(DisallowedPasscode)
  {
    hide PayloadIn, Body, Kept, Allowed, Stripped, Verhoeff.Valid, Verhoeff.CheckDigit, IsDigit;
    var check := Verhoeff.CheckDigit(Body(p));
    BodyPayload(p, DigitChar(check));
    Verhoeff.CheckDigitCompletes(Body(p), check);
  }

  lemma {:induction false} NothingToStrip(s: string, c: char)
    requires c !in s
    ensures Without(s, c) == s
  {
    if s != [] { NothingToStrip(s[1..], c); }
  }

  /** The code exactly as printed is one such typing. */
  lemma PrintedAsTyped(p: Payload)
    requires p.passcode <= 0x7FF_FFFF
    ensures Stripped(ManualText(p).value) == ManualText(p).value
  {
    var code := ManualText(p).value;
    NothingToStrip(code, '-');
    NothingToStrip(code, ' ');
  }

  /** No code can spell a discriminator of more than 12 bits. */
  lemma TwelveBits(typed: string)
    ensures FromManualText(typed).Ok? ==> FromManualText(typed).value.discriminator <= 0xF00
  {
    hide Allowed, Parse, Verhoeff.Valid, Stripped;
  }

  /**
   * Exactly the payloads whose code reads back.  Printing does not check the width of the discriminator,
   * so a wider one is printed without an error into a code that means something else or nothing.
   */
  lemma ManualFaithful(p: Payload)
    ensures ManualText(p).Ok? && FromManualText(ManualText(p).value) == Ok(Kept(p))
       <==> p.passcode <= 0x7FF_FFFF && Allowed(p.passcode) && p.discriminator <= 0xFFF
  {
    hide Allowed, FromManualText, Body;
    if ManualText(p).Ok? {
      var code := ManualText(p).value;
      TwelveBits(code);
      if p.discriminator <= 0xFFF {
        PrintedAsTyped(p);
        ManualRoundTrip(p, code);
      }
    }
  }

  /** Digits of a length a code can have, with a check digit that fits. */
  predicate IsCode(code: string) {
    (|code| == 11 || |code| == 21) && AllDigits(code) && Verhoeff.Valid(code)
  }

  /** Parsing runs past the end exactly for the short codes whose first digit announces the identifiers. */
  lemma PanicsWhen(typed: string)
    ensures FromManualText(typed) == Err(IndexPanic) <==>
              var code := Stripped(typed);
              |code| == 11 && IsCode(code) && DigitValue(code[0]) / 4 % 2 == 1
  {
    hide Stripped, Allowed, Parse, Verhoeff.Valid, AllDigits;
    var code := Stripped(typed);
    if AllDigits(code) && |code| > 0 { OfDigits(code, 0); }
  }

  const PANIC_BODY := "4000000000"

  /** Such codes exist: this one, with its check digit. */
  lemma PanicReached()
    ensures AllDigits(PANIC_BODY)
    ensures FromManualText(PANIC_BODY + [DigitChar(Verhoeff.CheckDigit(PANIC_BODY))]) == Err(IndexPanic)
  {
    hide FromManualText, Without, Verhoeff.CheckDigit, Verhoeff.Valid;
    var check := Verhoeff.CheckDigit(PANIC_BODY);
    var code := PANIC_BODY + [DigitChar(check)];
    Verhoeff.CheckDigitCompletes(PANIC_BODY, check);
    assert code[0] == '4' && DigitValue(code[0]) == 4;
    NothingToStrip(code, '-');
    NothingToStrip(code, ' ');
    PanicsWhen(code);
  }

  /** One wrong digit anywhere in a valid code is reported as a wrong check digit. */
  lemma WrongDigitRejected(pre: string, a: char, b: char, post: string, typed: string)
    requires IsCode(pre + [a] + post)
    requires IsDigit(b) && a != b && Stripped(typed) == pre + [b] + post
    ensures FromManualText(typed) == Err(WrongCheckDigit)
  {
    hide PayloadIn, Stripped, Verhoeff.Valid;
    DigitsOfParts(pre, [a], post);
    OfDigits([a], 0);
    Verhoeff.OneDigitChanged(pre, a, b, post);
  }

  /** And so is a swap of two different neighbours. */
  lemma SwapRejected(pre: string, a: char, b: char, post: string, typed: string)
    requires IsCode(pre + [a, b] + post)
    requires a != b && Stripped(typed) == pre + [b, a] + post
    ensures FromManualText(typed) == Err(WrongCheckDigit)
  {
    hide PayloadIn, Stripped, Verhoeff.Valid;
    DigitsOfParts(pre, [a, b], post);
    OfDigits([a, b], 0);
    OfDigits([a, b], 1);
    Verhoeff.NeighboursSwapped(pre, a, b, post);
  }

  lemma OfDigits(s: string, i: nat)
    requires AllDigits(s) && i < |s|
    ensures IsDigit(s[i])
  {
  }

  lemma PartOfDigits(s: string, i: nat, j: nat)
    requires AllDigits(s) && i <= j <= |s|
    ensures AllDigits(s[i..j])
  {
  }

  lemma DigitsOfParts(pre: string, mid: string, post: string)
    requires AllDigits(pre + mid + post)
    ensures AllDigits(pre) && AllDigits(mid) && AllDigits(post)
  {
    var s := pre + mid + post;
    assert forall i :: 0 <= i < |pre| ==> pre[i] == s[i];
    assert forall i :: 0 <= i < |mid| ==> mid[i] == s[|pre| + i];
    assert forall i :: 0 <= i < |post| ==> post[i] == s[|pre| + |mid| + i];
  }

  // ----- the layout in plain numbers ----------------------------------------------------------

  /** The number that the digits `i .. j` of `s` spell. */
  function Group(s: string, i: nat, j: nat): nat
    requires AllDigits(s) && i <= j <= |s|
  {
    PartOfDigits(s, i, j);
    Parse(s[i..j])
  }

  /** The digits of a code as numbers: one, five, four and, under the custom flow 2, two more groups of five. */
  lemma BodyNumbers(p: Payload)
    requires p.discriminator < 0x1000 && p.passcode < 0x800_0000
    ensures |Body(p)| == if p.flow == 2 then 20 else 10
    ensures Group(Body(p), 0, 1) == (if p.flow == 2 then 4 else 0) + p.discriminator / 1024
    ensures Group(Body(p), 1, 6) == p.discriminator / 256 % 4 * 16384 + p.passcode % 16384
    ensures Group(Body(p), 6, 10) == p.passcode / 16384
    ensures p.flow == 2 ==> Group(Body(p), 10, 15) == p.vendorID && Group(Body(p), 15, 20) == p.productID
  {
    hide Body, Parse, FirstDigit, AllDigits;
    FirstDigitIsSum(p);
    BodyLength(p);
    BodyGroups(p, Body(p) + "0", '0', ShortDiscriminator(p) % 4 * 0x4000 + p.passcode % 0x4000,
               p.passcode / 0x4000 % 0x2000);
    SameGroup(Body(p), '0', 1, 6);
    SameGroup(Body(p), '0', 6, 10);
    if p.flow == 2 {
      SameGroup(Body(p), '0', 10, 15);
      SameGroup(Body(p), '0', 15, 20);
    }
    FirstGroup(Body(p), '0');
  }

  lemma SameGroup(s: string, c: char, i: nat, j: nat)
    requires AllDigits(s) && i <= j <= |s|
    ensures (s + [c])[i..j] == s[i..j]
  {
  }

  lemma FirstGroup(s: string, c: char)
    requires AllDigits(s) && s != [] && IsDigit(c)
    ensures IsDigit((s + [c])[0]) && Group(s, 0, 1) == DigitValue((s + [c])[0])
  {
    assert s[0..1] == [s[0]] && (s + [c])[0] == s[0];
    ParseOne(s[0]);
  }

  lemma ParseOne(c: char)
    requires IsDigit(c)
    ensures Parse([c]) == DigitValue(c)
  {
    assert [c][..0] == [];
    assert Parse([c]) == 10 * Parse([]) + DigitValue(c);
  }

  lemma {:induction false} WithoutConcat(a: string, b: string, c: char)
    ensures Without(a + b, c) == Without(a, c) + Without(b, c)
  {
    if a == [] {
      assert a + b == b;
    } else {
      assert (a + b)[1..] == a[1..] + b;
      WithoutConcat(a[1..], b, c);
    }
  }

  /** Dashes and blanks are dropped wherever they stand, and nothing else. */
  lemma StrippedParts(a: string, c: char, b: string)
    ensures Stripped(a + [c] + b) == Stripped(a) + (if c == '-' || c == ' ' then [] else [c]) + Stripped(b)
    ensures Stripped([]) == []
  {
    WithoutConcat(a + [c], b, '-');
    WithoutConcat(a, [c], '-');
    WithoutConcat(Without(a, '-') + Without([c], '-'), Without(b, '-'), ' ');
    WithoutConcat(Without(a, '-'), Without([c], '-'), ' ');
  }

  /** A manual code says nothing of the version and the capabilities, nor of the low discriminator bits. */
  lemma NotInTheCode(typed: string)
    requires FromManualText(typed).Ok?
    ensures var p := FromManualText(typed).value;
            && p.version == 0 && p.capabilities == 0 && p.discriminator % 256 == 0
            && ((p.flow == 0 && p.vendorID == 0 && p.productID == 0) || p.flow == 2)
  {
    hide Allowed, Parse, Verhoeff.Valid, Stripped;
  }

  /** What is kept: the passcode, the four high discriminator bits and, under the custom flow, the identifiers. */
  lemma WhatIsKept(p: Payload)
    ensures var kept := Kept(p);
            && kept.passcode == p.passcode && kept.discriminator == p.discriminator - p.discriminator % 256
            && kept.version == 0 && kept.capabilities == 0
            && (p.flow == 2 ==> kept.flow == 2 && kept.vendorID == p.vendorID && kept.productID == p.productID)
            && (p.flow != 2 ==> kept.flow == 0 && kept.vendorID == 0 && kept.productID == 0)
  {
  }

  lemma MiddleDigits()
    ensures Pad(49701, 5) == "49701"
  {
    hide Pad;
    PadStep(49701, 5, 4970, 1);
    PadStep(4970, 4, 497, 0);
    PadStep(497, 3, 49, 7);
    PadStep(49, 2, 4, 9);
    PadStep(4, 1, 0, 4);
    NoDigits();
  }

  lemma HighDigits()
    ensures Pad(1233, 4) == "1233"
  {
    hide Pad;
    PadStep(1233, 4, 123, 3);
    PadStep(123, 3, 12, 3);
    PadStep(12, 2, 1, 2);
    PadStep(1, 1, 0, 1);
    NoDigits();
  }

  lemma ExampleBody()
    ensures Body(EXAMPLE) == "3497011233"
  {
    hide Pad, Or;
    FirstDigitIsSum(EXAMPLE);
    MiddleDigits();
    HighDigits();
    assert Format(3) == "3";
  }

  /** The manual code of a known payload, and what is read from it as it is usually printed. */
  lemma ExampleManualCode()
    ensures ManualText(EXAMPLE) == Ok("34970112332")
    ensures FromManualText("3497-011-2332") == Ok(Payload(0, 0, 0, 0, 0, 3840, 20202021))
  {
    hide Body, FromManualText, Stripped, Verhoeff.CheckDigit, Allowed;
    ExampleBody();
    Verhoeff.KnownCheckDigits();
    assert "3497011233" + [DigitChar(2)] == "34970112332";
    DashesDropped();
    ManualRoundTrip(EXAMPLE, "3497-011-2332");
    RefusedPasscodes(20202021);
  }

  lemma DashesDropped()
    ensures Stripped("3497-011-2332") == "34970112332"
  {
    hide Stripped, Without;
    Dashless("3497");
    Dashless("011");
    Dashless("2332");
    StrippedParts("3497", '-', "011-2332");
    StrippedParts("011", '-', "2332");
    assert "3497" + ['-'] + "011-2332" == "3497-011-2332";
    assert "011" + ['-'] + "2332" == "011-2332";
  }

  lemma Dashless(s: string)
    requires '-' !in s && ' ' !in s
    ensures Stripped(s) == s
  {
    NothingToStrip(s, '-');
    NothingToStrip(s, ' ');
  }

  // ----- the two operations -----------------------------------------------------------------------

  /** The body with every `|` written out. */
  lemma BodyOf(p: Payload)
    ensures Body(p) ==
      Format(Or(if p.flow == CUSTOM_FLOW then 4 else 0, ShortDiscriminator(p) / 4, 8))
      + Pad(Or(ShortDiscriminator(p) % 4 * 0x4000, p.passcode % 0x4000, 32), 5)
      + Pad(p.passcode / 0x4000 % 0x2000, 4)
      + if p.flow == CUSTOM_FLOW then Pad(p.vendorID, 5) + Pad(p.productID, 5) else []
  {
    hide Or, Format, Pad;
    WidthTable();
    OrIsSum(ShortDiscriminator(p) % 4, p.passcode % 0x4000, 14, 32);
  }

  lemma ManualTextOf(p: Payload)
    ensures p.passcode > 0x7FF_FFFF ==> ManualText(p) == Err(PasscodeTooLarge)
    ensures p.passcode <= 0x7FF_FFFF ==> ManualText(p) == Ok(Body(p) + [DigitChar(Verhoeff.CheckDigit(Body(p)))])
  {
  }

  method ManualPairingCode(p: Payload) returns (r: Result<string>)
    ensures r == ManualText(p)
  {
    hide *;
    if p.passcode > 0x7FF_FFFF {
      ManualTextOf(p);
      return Err(PasscodeTooLarge);
    }
    var shortDisc: nat := ShortDiscriminator(p);
    var vidPIDPresent: nat := 0;
    if p.flow == CUSTOM_FLOW {
      vidPIDPresent := 1;
    }
    var digit1 := Or(vidPIDPresent * 4, shortDisc / 4, 8);
    var chunk2 := Or(shortDisc % 4 * 0x4000, p.passcode % 0x4000, 32);
    var chunk3 := p.passcode / 0x4000 % 0x2000;
    var code := Format(digit1) + Pad(chunk2, 5) + Pad(chunk3, 4);
    if vidPIDPresent == 1 {
      code := code + (Pad(p.vendorID, 5) + Pad(p.productID, 5));
    }
    BodyOf(p);
    assert code == Body(p);
    var check := Verhoeff.Generate(code);
    ManualTextOf(p);
    r := Ok(code + [DigitChar(check)]);
  }

  /** 32-bit arithmetic, wrapping. */
  method ParseDecimal(s: string) returns (val: u32)
    requires AllDigits(s)
    ensures val == Parse(s) % 0x1_0000_0000
    ensures |s| <= 5 ==> val == Parse(s)
  {
    val := 0;
    for i := 0 to |s|
      invariant val == Parse(s[..i]) % 0x1_0000_0000
    {
      assert s[..i + 1][..i] == s[..i];
      WrapStep(Parse(s[..i]), DigitValue(s[i]));
      val := (val * 10 + DigitValue(s[i])) % 0x1_0000_0000;
    }
    assert s[..|s|] == s;
    if |s| <= 5 { AtMostFiveDigits(s); }
  }

  lemma WrapStep(n: nat, d: nat)
    ensures (n % 0x1_0000_0000 * 10 + d) % 0x1_0000_0000 == (10 * n + d) % 0x1_0000_0000
  {
  }

  method DigitsOnly(code: string) returns (ok: bool)
    ensures ok == AllDigits(code)
  {
    for i := 0 to |code|
      invariant AllDigits(code[..i])
    {
      if code[i] < '0' || code[i] > '9' {
        assert !IsDigit(code[i]);
        return false;
      }
    }
    assert code[..|code|] == code;
    ok := true;
  }

  /** The bit arithmetic of parsing: the two parts of the discriminator and of the passcode. */
  method Join(digit1: nat, chunk2: u32, chunk3: u32) returns (shortDisc: nat, passcode: u32)
    requires chunk3 < 10_000
    ensures shortDisc == digit1 % 4 * 4 + chunk2 / 0x4000 % 4
    ensures passcode == chunk3 * 0x4000 + chunk2 % 0x4000
  {
    hide Or;
    WidthTable();
    var shortDiscHigh := digit1 % 4;
    var shortDiscLow := chunk2 / 0x4000 % 4;
    OrIsSum(shortDiscHigh, shortDiscLow, 2, 8);
    OrIsSum(chunk3, chunk2 % 0x4000, 14, 32);
    shortDisc := Or(shortDiscHigh * 4, shortDiscLow, 8);
    passcode := Or(chunk3 * 0x4000, chunk2 % 0x4000, 32);
  }

  /** The last part of parsing: cutting the groups out of a checked code. */
  method ParseGroups(code: string) returns (r: Result<Payload>)
    requires AllDigits(code) && (|code| == 11 || |code| == 21)
    ensures r == PayloadIn(code)
  {
    hide Allowed, Parse, AllDigits, IsDigit;
    OfDigits(code, 0);
    PartOfDigits(code, 1, 6);
    PartOfDigits(code, 6, 10);
    var digit1 := DigitValue(code[0]);
    var vidPIDPresent := digit1 / 4 % 2;
    FourDigits(code[6..10]);
    if |code| == 21 {
      PartOfDigits(code, 10, 15);
      PartOfDigits(code, 15, 20);
    }
    var chunk2 := ParseDecimal(code[1..6]);
    var chunk3 := ParseDecimal(code[6..10]);
    var shortDisc, passcode := Join(digit1, chunk2, chunk3);
    var p := Payload(0, 0, 0, 0, 0, shortDisc * 0x100, passcode);
    if vidPIDPresent == 1 {
      if |code| == 11 {
        return Err(IndexPanic);
      }
      var vendorID := ParseDecimal(code[10..15]);
      var productID := ParseDecimal(code[15..20]);
      p := p.(flow := CUSTOM_FLOW, vendorID := vendorID % 0x1_0000, productID := productID % 0x1_0000);
    }
    var ok := ValidatePasscode(p.passcode);
    if !ok {
      return Err(DisallowedPasscode);
    }
    r := Ok(p);
  }

  method ParseManualPairingCode(typed: string) returns (r: Result<Payload>)
    ensures r == FromManualText(typed)
  {
    var code := Stripped(typed);
    if |code| != 11 && |code| != 21 {
      return Err(WrongLength);
    }
    var digits := DigitsOnly(code);
    if !digits {
      return Err(NotADigit);
    }
    var valid := Verhoeff.Validate(code);
    if !valid {
      return Err(WrongCheckDigit);
    }
    r := ParseGroups(code);
  }

  // ----- either kind of code --------------------------------------------------------------------------

  function FromSetupCode(code: string): Result<Payload> {
    if |code| > 3 && code[..3] == PREFIX then FromQRText(code) else FromManualText(code)
  }

  /** `parseSetupCode` tells the two kinds of code apart: both printed forms find their parser. */
  lemma SetupCodeRoundTrip(p: Payload)
    requires Allowed(p.passcode) && p.passcode <= 0x7FF_FFFF && p.discriminator <= 0xFFF
    ensures FromSetupCode(QRText(p).value) == Ok(p.(version := p.version % 8, flow := p.flow % 4))
    ensures FromSetupCode(ManualText(p).value) == Ok(Kept(p))
  {
    hide FromQRText, FromManualText, QRText, Allowed, Kept, Body, IsDigit;
    QRTextShape(p);
    var code := ManualText(p).value;
    PrintedAsTyped(p);
    ManualRoundTrip(p, code);
    QRRoundTrip(p);
    assert AllDigits(code);
    OfDigits(code, 0);
    NoDigit();
  }

  lemma NoDigit()
    ensures !IsDigit(PREFIX[0])
  {
  }

  method ParseSetupCode(code: string) returns (r: Result<Payload>)
    ensures r == FromSetupCode(code)
  {
    if |code| > 3 && code[..3] == PREFIX {
      r := ParseQRCode(code);
    } else {
      r := ParseManualPairingCode(code);
    }
  }
}
