/** Device ids: a SIM number of six bytes and a logic channel, printed as fourteen lower-case
    hex digits (jt1078/jt1078_server/Jt1078Util.cpp). */
module DeviceId {
  import opened Bytes

  const DIGITS := 14

  function Pow16(n: nat): (p: nat)
    ensures p > 0
  {
    if n == 0 then 1 else 16 * Pow16(n - 1)
  }

  function DigitChar(v: nat): char
    requires v < 16
  {
    if v < 10 then ('0' as int + v) as char else ('a' as int + v - 10) as char
  }

  predicate IsHex(c: char) { '0' <= c <= '9' || 'a' <= c <= 'f' || 'A' <= c <= 'F' }

  function DigitValue(c: char): (v: nat)
    requires IsHex(c)
    ensures v < 16
  {
    if c <= '9' then c as int - '0' as int
    else if c >= 'a' then c as int - 'a' as int + 10
    else c as int - 'A' as int + 10
  }

  /** The value of the longest run of hex digits at the front. */
  function ParseFrom(acc: nat, s: string): nat
    decreases |s|
  {
    if s == "" || !IsHex(s[0]) then acc else ParseFrom(16 * acc + DigitValue(s[0]), s[1..])
  }

  function Value(s: string): nat { ParseFrom(0, s) }

  const ULLONG_MAX := 0xffff_ffff_ffff_ffff

  /** isspace in the C locale. */
  predicate IsBlank(c: char) { c == ' ' || 9 <= c as int <= 13 }

  function SkipBlanks(s: string): (t: string)
    ensures |t| <= |s|
  {
    if s != "" && IsBlank(s[0]) then SkipBlanks(s[1..]) else s
  }

  predicate HasMinus(s: string) { SkipBlanks(s) != "" && SkipBlanks(s)[0] == '-' }

  function Unsigned(t: string): string { if t != "" && (t[0] == '+' || t[0] == '-') then t[1..] else t }

  function Unprefixed(t: string): string {
    if |t| > 2 && t[0] == '0' && (t[1] == 'x' || t[1] == 'X') && IsHex(t[2]) then t[2..] else t
  }

  /** The number behind blanks, sign and prefix. */
  function Magnitude(s: string): nat { Value(Unprefixed(Unsigned(SkipBlanks(s)))) }

  /** strtoull(_, nullptr, 16): a number too wide for the type becomes its largest value, and
      any other behind a minus sign is negated in the type. */
  function Parse(s: string): (id: nat)
    ensures id <= ULLONG_MAX
  {
    if Magnitude(s) > ULLONG_MAX then ULLONG_MAX
    else if HasMinus(s) && Magnitude(s) > 0 then ULLONG_MAX + 1 - Magnitude(s)
    else Magnitude(s)
  }

  /** Nothing is skipped in front of hex digits alone. */
  lemma ParseOfHex(s: string)
    requires forall i :: 0 <= i < |s| ==> IsHex(s[i])
    ensures Parse(s) == if Value(s) > ULLONG_MAX then ULLONG_MAX else Value(s)
  {
  }

  lemma ParseOfMinus(s: string)
    requires forall i :: 0 <= i < |s| ==> IsHex(s[i])
    ensures HasMinus("-" + s) && Magnitude("-" + s) == Value(s)
  {
    assert ("-" + s)[1..] == s;
  }

  /** "%0<width>lx" for an id of at most `width` digits. */
  function PrintDigits(id: nat, width: nat): (s: string)
    ensures |s| == width
  {
    if width == 0 then "" else PrintDigits(id / 16, width - 1) + [DigitChar(id % 16)]
  }

  /** Ids that fourteen digits can print. */
  predicate Printable(id: nat) { id < Pow16(DIGITS) }

  /** The first fourteen digits of an id. */
  function Leading(id: nat): (r: nat)
    ensures Printable(r) && (Printable(id) ==> r == id)
  {
    if Printable(id) then id else Leading(id / 16)
  }

  /** What the fifteen bytes given to snprintf leave of the id, up to the terminator. Whoever
      is told an id reads no further (`ParseUpToNul`). */
  function Print(id: nat): string { PrintDigits(Leading(id), DIGITS) }

  predicate IsLowerHex(c: char) { '0' <= c <= '9' || 'a' <= c <= 'f' }

  predicate Canonical(s: string) {
    |s| == DIGITS && forall i :: 0 <= i < |s| ==> IsLowerHex(s[i])
  }

  lemma DigitBack(v: nat)
    requires v < 16
    ensures IsLowerHex(DigitChar(v)) && DigitValue(DigitChar(v)) == v
  {
  }

  lemma CharBack(c: char)
    requires IsLowerHex(c)
    ensures DigitChar(DigitValue(c)) == c
  {
  }

  lemma {:induction false} ParseSnoc(acc: nat, s: string, c: char)
    requires IsHex(c) && forall i :: 0 <= i < |s| ==> IsHex(s[i])
    ensures ParseFrom(acc, s + [c]) == 16 * ParseFrom(acc, s) + DigitValue(c)
    decreases |s|
  {
    if s == "" {
      assert (s + [c])[1..] == "";
    } else {
      assert (s + [c])[1..] == s[1..] + [c];
      ParseSnoc(16 * acc + DigitValue(s[0]), s[1..], c);
    }
  }

  lemma {:induction false} PrintIsHex(id: nat, width: nat)
    ensures forall i :: 0 <= i < width ==> IsLowerHex(PrintDigits(id, width)[i])
  {
    if width > 0 {
      PrintIsHex(id / 16, width - 1);
      DigitBack(id % 16);
    }
  }

  lemma {:induction false} ValueOfPrintDigits(id: nat, width: nat)
    requires id < Pow16(width)
    ensures Value(PrintDigits(id, width)) == id
  {
    if width > 0 {
      ValueOfPrintDigits(id / 16, width - 1);
      PrintIsHex(id / 16, width - 1);
      DigitBack(id % 16);
      ParseSnoc(0, PrintDigits(id / 16, width - 1), DigitChar(id % 16));
    }
  }

  lemma {:induction false} PrintDigitsOfValue(s: string)
    requires forall i :: 0 <= i < |s| ==> IsLowerHex(s[i])
    ensures Value(s) < Pow16(|s|) && PrintDigits(Value(s), |s|) == s
  {
    if s != "" {
      var n := |s| - 1;
      PrintDigitsOfValue(s[..n]);
      assert s == s[..n] + [s[n]];
      ParseSnoc(0, s[..n], s[n]);
      CharBack(s[n]);
      var v := Value(s[..n]);
      assert Value(s) / 16 == v && Value(s) % 16 == DigitValue(s[n]);
    }
  }

  /** Fourteen digits stay far below what the type holds. */
  lemma PrintableFits(id: nat)
    requires Printable(id)
    ensures id <= ULLONG_MAX
  {
    assert Pow16(7) == 0x1000_0000;
    assert Pow16(14) == 0x100_0000_0000_0000;
  }

  /** Any id of fourteen digits survives being printed and parsed. */
  lemma ParseOfPrint(id: nat)
    requires Printable(id)
    ensures Canonical(Print(id)) && Parse(Print(id)) == id
  {
    PrintIsHex(id, DIGITS);
    ValueOfPrintDigits(id, DIGITS);
    PrintableFits(id);
    ParseOfHex(Print(id));
  }

  /** Whatever is printed parses to an id that can be printed. */
  lemma PrintedIsPrintable(id: nat)
    ensures Parse(Print(id)) == Leading(id)
  {
    ParseOfPrint(Leading(id));
  }

  /** Any canonical string survives being parsed and printed. */
  lemma PrintOfParse(s: string)
    requires Canonical(s)
    ensures Printable(Parse(s)) && Print(Parse(s)) == s
  {
    PrintDigitsOfValue(s);
    PrintableFits(Value(s));
    ParseOfHex(s);
  }

  /** A string of the right length comes back from its id unchanged exactly if it is canonical:
      anything else is rewritten, upper-case digits to lower-case ones for a start. */
  lemma RewrittenUnlessCanonical(s: string)
    ensures Print(Parse(s)) == s <==> Canonical(s)
  {
    PrintIsHex(Leading(Parse(s)), DIGITS);
    if Canonical(s) {
      PrintOfParse(s);
    }
  }

  /** Hence two canonical strings name the same device only when they are the same string. */
  lemma ParseInjective(s: string, t: string)
    requires Canonical(s) && Canonical(t) && Parse(s) == Parse(t)
    ensures s == t
  {
    PrintOfParse(s);
    PrintOfParse(t);
  }

  // ---- Which strings make an id too wide to print ----

  lemma {:induction false} PowMonotone(m: nat, n: nat)
    requires m <= n
    ensures Pow16(m) <= Pow16(n)
  {
    if m < n {
      PowMonotone(m, n - 1);
    }
  }

  lemma Scales(acc: nat, v: nat, p: nat)
    requires v < 16
    ensures (16 * acc + v + 1) * p <= (acc + 1) * (16 * p)
  {
    assert (acc + 1) * (16 * p) - (16 * acc + v + 1) * p == (15 - v) * p;
    assert (15 - v) * p >= 0;
  }

  lemma {:induction false} Bigger(acc: nat, n: nat)
    ensures acc < (acc + 1) * Pow16(n)
  {
    if n > 0 {
      Bigger(acc, n - 1);
      Scales(acc, 15, Pow16(n - 1));
    }
  }

  lemma {:induction false} ValueFits(acc: nat, s: string)
    ensures ParseFrom(acc, s) < (acc + 1) * Pow16(|s|)
    decreases |s|
  {
    if s == "" || !IsHex(s[0]) {
      Bigger(acc, |s|);
    } else {
      ValueFits(16 * acc + DigitValue(s[0]), s[1..]);
      Scales(acc, DigitValue(s[0]), Pow16(|s| - 1));
    }
  }

  lemma WidthOfType()
    ensures Pow16(DIGITS) == 0x100_0000_0000_0000 && Pow16(15) == 0x1000_0000_0000_0000
  {
    assert Pow16(7) == 0x1000_0000;
    assert Pow16(14) == 0x100_0000_0000_0000;
  }

  /** A string that is at most as long as an id names one that can be printed, unless it is a
      number other than zero behind a minus sign. */
  lemma FitsUnlessNegative(s: string)
    requires |s| <= DIGITS
    ensures Printable(Parse(s)) <==> !(HasMinus(s) && Magnitude(s) > 0)
  {
    var digits := Unprefixed(Unsigned(SkipBlanks(s)));
    ValueFits(0, digits);
    PowMonotone(|digits|, DIGITS);
    WidthOfType();
  }

  // ---- Printing into sixteen bytes ----

  /** How many characters "%014lx" makes of an id of the type. */
  function PrintedSize(id: nat): nat {
    if id < Pow16(DIGITS) then DIGITS else if id < Pow16(15) then 15 else 16
  }

  /** Dropping the last digit of the number drops it from the text. */
  lemma DropLast(id: nat, width: nat)
    ensures PrintDigits(id, width + 1)[..width] == PrintDigits(id / 16, width)
  {
  }

  lemma DropTwo(id: nat, width: nat)
    ensures PrintDigits(id, width + 2)[..width] == PrintDigits(id / 16 / 16, width)
  {
    DropLast(id, width + 1);
    DropLast(id / 16, width);
    assert PrintDigits(id, width + 2)[..width] == PrintDigits(id, width + 2)[..width + 1][..width];
  }

  lemma LeadingOf(id: nat)
    requires id <= ULLONG_MAX
    ensures Leading(id) == if id < Pow16(DIGITS) then id else if id < Pow16(15) then id / 16 else id / 16 / 16
  {
    WidthOfType();
  }

  /** Whatever its size, the text begins with what is printed of the id. */
  lemma FirstDigits(id: nat)
    requires id <= ULLONG_MAX
    ensures PrintDigits(id, PrintedSize(id))[..DIGITS] == Print(id)
  {
    LeadingOf(id);
    DropLast(id, DIGITS);
    DropTwo(id, DIGITS);
  }

  /** snprintf is given fifteen of the sixteen bytes and returns how many characters it would
      have written; the terminator is set there once more. With an id of sixteen digits that
      is behind the buffer, and nothing is known of the last character of the result. */
  method GenerateDeviceIdStrByDeviceId(id: nat) returns (s: string, ghost overrun: bool)
    requires id <= ULLONG_MAX
    ensures overrun <==> id >= Pow16(15)
    ensures |s| == PrintedSize(id) && s[..DIGITS] == Print(id)
    ensures !overrun ==> s == Print(id) + if Printable(id) then "" else "\0"
  {
    FirstDigits(id);
    var buf := new char[16];
    var text := PrintDigits(id, PrintedSize(id));
    Snprintf(buf, text);
    var nret := |text|;
    overrun := nret >= buf.Length;
    if nret < buf.Length {
      buf[nret] := '\0';
    }
    s := buf[..nret];
    assert s[..DIGITS] == buf[..DIGITS] == text[..DIGITS];
  }

  /** The first fourteen characters and a terminator. */
  method Snprintf(buf: array<char>, text: string)
    requires buf.Length == 16 && |text| >= DIGITS
    modifies buf
    ensures buf[..DIGITS] == text[..DIGITS] && buf[DIGITS] == '\0'
  {
    for i := 0 to DIGITS
      invariant buf[..i] == text[..i]
    {
      buf[i] := text[i];
    }
    buf[DIGITS] := '\0';
  }

  lemma {:induction false} ValueUpToNul(acc: nat, s: string, rest: string)
    ensures ParseFrom(acc, s + "\0" + rest) == ParseFrom(acc, s)
    decreases |s|
  {
    var all := s + "\0" + rest;
    if s != "" && IsHex(s[0]) {
      assert all[1..] == s[1..] + "\0" + rest;
      ValueUpToNul(16 * acc + DigitValue(s[0]), s[1..], rest);
    } else {
      assert s != "" ==> all[0] == s[0];
      assert s == "" ==> all[0] == '\0';
    }
  }

  lemma {:induction false} BlanksUpToNul(s: string, rest: string)
    ensures SkipBlanks(s + "\0" + rest) == SkipBlanks(s) + "\0" + rest
    decreases |s|
  {
    var all := s + "\0" + rest;
    if s != "" && IsBlank(s[0]) {
      assert all[1..] == s[1..] + "\0" + rest;
      BlanksUpToNul(s[1..], rest);
    } else {
      assert s != "" ==> all[0] == s[0];
      assert s == "" ==> all[0] == '\0';
    }
  }

  lemma SignUpToNul(t: string, rest: string)
    ensures Unsigned(t + "\0" + rest) == Unsigned(t) + "\0" + rest
  {
    var all := t + "\0" + rest;
    if t != "" {
      assert all[0] == t[0] && all[1..] == t[1..] + "\0" + rest;
    } else {
      assert all[0] == '\0';
    }
  }

  lemma PrefixUpToNul(t: string, rest: string)
    ensures Unprefixed(t + "\0" + rest) == Unprefixed(t) + "\0" + rest
  {
    var all := t + "\0" + rest;
    assert forall i :: 0 <= i < |t| ==> all[i] == t[i];
    assert all[|t|] == '\0';
    if |t| > 2 {
      assert all[2..] == t[2..] + "\0" + rest;
    }
  }

  /** Nothing behind a terminator is read. */
  lemma ParseUpToNul(s: string, rest: string)
    ensures Parse(s + "\0" + rest) == Parse(s)
  {
    var t := SkipBlanks(s);
    BlanksUpToNul(s, rest);
    SignUpToNul(t, rest);
    PrefixUpToNul(Unsigned(t), rest);
    ValueUpToNul(0, Unprefixed(Unsigned(t)), rest);
  }

  // ---- From SIM number and channel ----

  /** Two hex digits a byte. */
  function HexOf(bytes: seq<byte>): string {
    if bytes == [] then "" else PrintDigits(bytes[0], 2) + HexOf(bytes[1..])
  }

  function GenerateDeviceIdStr(sim: seq<byte>, channel: byte): string
    requires |sim| == 6
  {
    HexOf(sim + [channel])
  }

  lemma {:induction false} HexIsCanonical(bytes: seq<byte>)
    ensures |HexOf(bytes)| == 2 * |bytes|
    ensures forall i :: 0 <= i < |HexOf(bytes)| ==> IsLowerHex(HexOf(bytes)[i])
  {
    if bytes != [] {
      PrintIsHex(bytes[0], 2);
      HexIsCanonical(bytes[1..]);
    }
  }

  lemma TwoDigits(b: byte)
    ensures var s := PrintDigits(b, 2);
            && s == [DigitChar(b as int / 16), DigitChar(b as int % 16)]
            && 16 * DigitValue(s[0]) + DigitValue(s[1]) == b
  {
    var v: nat := b;
    DigitBack(v / 16);
    DigitBack(v % 16);
    assert PrintDigits(v / 16, 1) == PrintDigits(v / 16 / 16, 0) + [DigitChar(v / 16)];
  }

  /** The printed bytes of two devices are the same only for the same bytes. */
  lemma {:induction false} HexInjective(a: seq<byte>, b: seq<byte>)
    requires |a| == |b| && HexOf(a) == HexOf(b)
    ensures a == b
  {
    if a != [] {
      TwoDigits(a[0]);
      TwoDigits(b[0]);
      assert HexOf(a)[..2] == PrintDigits(a[0], 2) && HexOf(b)[..2] == PrintDigits(b[0], 2);
      assert HexOf(a)[2..] == HexOf(a[1..]) && HexOf(b)[2..] == HexOf(b[1..]);
      HexInjective(a[1..], b[1..]);
    }
  }

  /** SIM and channel determine the id, and the id determines them. */
  lemma DeviceIdInjective(sim: seq<byte>, channel: byte, sim': seq<byte>, channel': byte)
    requires |sim| == 6 && |sim'| == 6
    requires Parse(GenerateDeviceIdStr(sim, channel)) == Parse(GenerateDeviceIdStr(sim', channel'))
    ensures sim == sim' && channel == channel'
  {
    var a, b := sim + [channel], sim' + [channel'];
    HexIsCanonical(a);
    HexIsCanonical(b);
    ParseInjective(HexOf(a), HexOf(b));
    HexInjective(a, b);
    assert a[..6] == b[..6] && a[6] == b[6];
  }

  // ---- The same, character by character ----

  const LOWER := "0123456789abcdef"

  /** The digits and their values, capital letters as well. */
  lemma DigitsListed(v: nat)
    requires v < 16
    ensures DigitChar(v) == LOWER[v] && IsHex(LOWER[v]) && DigitValue(LOWER[v]) == v
    ensures IsHex("0123456789ABCDEF"[v]) && DigitValue("0123456789ABCDEF"[v]) == v
  {
  }

  lemma OnlyThese(c: char)
    ensures IsHex(c) <==> c in "0123456789abcdefABCDEF"
  {
  }

  lemma {:induction false} HexOfAt(bytes: seq<byte>, k: nat)
    requires k < |bytes|
    ensures |HexOf(bytes)| == 2 * |bytes|
    ensures HexOf(bytes)[2 * k] == LOWER[bytes[k] / 16] && HexOf(bytes)[2 * k + 1] == LOWER[bytes[k] % 16]
  {
    HexIsCanonical(bytes);
    TwoDigits(bytes[0]);
    if k == 0 {
      var v: nat := bytes[0];
      DigitsListed(v / 16);
      DigitsListed(v % 16);
    } else {
      HexOfAt(bytes[1..], k - 1);
      assert HexOf(bytes) == PrintDigits(bytes[0], 2) + HexOf(bytes[1..]);
    }
  }

  /** The id of a car is its SIM number, two digits a byte, and then the channel. */
  lemma SimThenChannel(sim: seq<byte>, channel: byte)
    requires |sim| == 6
    ensures var s := GenerateDeviceIdStr(sim, channel);
            && |s| == 14
            && (forall k :: 0 <= k < 6 ==> s[2 * k] == LOWER[sim[k] / 16] && s[2 * k + 1] == LOWER[sim[k] % 16])
            && s[12] == LOWER[channel / 16] && s[13] == LOWER[channel % 16]
  {
    var bytes := sim + [channel];
    HexIsCanonical(bytes);
    forall k | 0 <= k < 7 ensures HexOf(bytes)[2 * k] == LOWER[bytes[k] / 16] && HexOf(bytes)[2 * k + 1] == LOWER[bytes[k] % 16] {
      HexOfAt(bytes, k);
    }
    assert forall k :: 0 <= k < 6 ==> bytes[k] == sim[k];
    assert bytes[6] == channel;
  }

  lemma {:induction false} HexOfSnoc(bytes: seq<byte>, b: byte)
    ensures HexOf(bytes + [b]) == HexOf(bytes) + PrintDigits(b, 2)
  {
    if bytes == [] {
      assert [b][1..] == [] && [] + [b] == [b];
      assert PrintDigits(b, 2) + "" == PrintDigits(b, 2);
    } else {
      HexOfSnoc(bytes[1..], b);
      assert (bytes + [b])[1..] == bytes[1..] + [b];
      Associative(PrintDigits(bytes[0], 2), HexOf(bytes[1..]), PrintDigits(b, 2));
    }
  }

  lemma TwoMore(s: string, b: byte)
    requires forall i :: 0 <= i < |s| ==> IsHex(s[i])
    ensures Value(s + PrintDigits(b, 2)) == 256 * Value(s) + b
  {
    TwoDigits(b);
    var t := PrintDigits(b, 2);
    PrintIsHex(b, 2);
    ParseSnoc(0, s, t[0]);
    ParseSnoc(0, s + [t[0]], t[1]);
    assert s + t == s + [t[0]] + [t[1]];
  }

  lemma {:induction false} ValueOfHex(bytes: seq<byte>)
    ensures Value(HexOf(bytes)) == Net(bytes, 0, |bytes|)
    decreases |bytes|
  {
    if bytes != [] {
      var n := |bytes| - 1;
      var before := bytes[..n];
      ValueOfHex(before);
      HexIsCanonical(before);
      HexOfSnoc(before, bytes[n]);
      assert before + [bytes[n]] == bytes;
      TwoMore(HexOf(before), bytes[n]);
      NetMoves(bytes, 0, before, 0, n);
    }
  }

  lemma HexFits(s: string)
    requires |s| == DIGITS && forall i :: 0 <= i < |s| ==> IsLowerHex(s[i])
    ensures Parse(s) == Value(s)
  {
    PrintDigitsOfValue(s);
    PrintableFits(Value(s));
    ParseOfHex(s);
  }

  /** As a number it is those seven bytes, the most significant first. */
  lemma IdOfCar(sim: seq<byte>, channel: byte)
    requires |sim| == 6
    ensures Parse(GenerateDeviceIdStr(sim, channel)) == Net(sim + [channel], 0, 7)
  {
    var bytes := sim + [channel];
    HexIsCanonical(bytes);
    ValueOfHex(bytes);
    HexFits(HexOf(bytes));
  }

  ghost predicate AllBlank(s: string) { forall i :: 0 <= i < |s| ==> s[i] in {' ', '\t', '\n', 11 as char, 12 as char, '\r'} }

  ghost predicate AllHex(s: string) { forall i :: 0 <= i < |s| ==> IsHex(s[i]) }

  ghost predicate NoMoreDigits(rest: string) { rest == "" || !IsHex(rest[0]) }

  lemma {:induction false} BlanksSkipped(blanks: string, t: string)
    requires AllBlank(blanks) && (t == "" || !IsBlank(t[0]))
    ensures SkipBlanks(blanks + t) == t
  {
    if blanks == "" {
      assert blanks + t == t;
    } else {
      BlanksSkipped(blanks[1..], t);
      assert (blanks + t)[1..] == blanks[1..] + t;
    }
  }

  lemma {:induction false} StopsAtRest(acc: nat, digits: string, rest: string)
    requires AllHex(digits) && NoMoreDigits(rest)
    ensures ParseFrom(acc, digits + rest) == ParseFrom(acc, digits)
    decreases |digits|
  {
    if digits == "" {
      assert digits + rest == rest;
    } else {
      StopsAtRest(16 * acc + DigitValue(digits[0]), digits[1..], rest);
      assert (digits + rest)[1..] == digits[1..] + rest;
    }
  }

  lemma SignTaken(sign: string, t: string)
    requires sign in {"", "+", "-"} && t != "" && IsHex(t[0])
    ensures Unsigned(sign + t) == t && !IsBlank((sign + t)[0]) && ((sign + t)[0] == '-' <==> sign == "-")
  {
    if sign == "" {
      assert sign + t == t;
    } else {
      assert (sign + t)[1..] == t && (sign + t)[0] == sign[0];
    }
  }

  /** What might be taken for a prefix: a zero, the letter, and a digit. */
  ghost predicate LooksPrefixed(t: string) { |t| > 2 && t[0] == '0' && t[1] in {'x', 'X'} && IsHex(t[2]) }

  lemma PrefixTaken(prefix: string, t: string)
    requires prefix in {"", "0x", "0X"} && t != "" && IsHex(t[0]) && (prefix == "" ==> !LooksPrefixed(t))
    ensures Unprefixed(prefix + t) == t && prefix + t != "" && IsHex((prefix + t)[0])
  {
    if prefix == "" {
      assert prefix + t == t;
    } else {
      var all := prefix + t;
      assert all[2..] == t && all[2] == t[0] && all[0] == '0' && all[1] == prefix[1];
    }
  }

  lemma MeansOf(s: string, t: string, number: string, minus: bool, n: nat)
    requires SkipBlanks(s) == t && t != "" && (t[0] == '-' <==> minus) && Unprefixed(Unsigned(t)) == number && Value(number) == n
    ensures Parse(s) == if n >= 0x1_0000_0000_0000_0000 then 0xffff_ffff_ffff_ffff
                        else if minus && n > 0 then 0x1_0000_0000_0000_0000 - n else n
  {
  }

  /** strtoull on everything it reads: blanks, a sign, a prefix, digits, and then whatever does not
      go on with the digits. */
  lemma ParseMeans(blanks: string, sign: string, prefix: string, digits: string, rest: string)
    requires AllBlank(blanks) && sign in {"", "+", "-"} && prefix in {"", "0x", "0X"} && digits != "" && AllHex(digits)
    requires NoMoreDigits(rest) && (prefix == "" ==> !LooksPrefixed(digits + rest))
    ensures var n := Value(digits);
            Parse(blanks + (sign + (prefix + (digits + rest)))) ==
              if n >= 0x1_0000_0000_0000_0000 then 0xffff_ffff_ffff_ffff
              else if sign == "-" && n > 0 then 0x1_0000_0000_0000_0000 - n else n
  {
    var number := digits + rest;
    assert number[0] == digits[0];
    PrefixTaken(prefix, number);
    var t := sign + (prefix + number);
    SignTaken(sign, prefix + number);
    BlanksSkipped(blanks, t);
    StopsAtRest(0, digits, rest);
    MeansOf(blanks + t, t, number, sign == "-", Value(digits));
  }

  /** Digit by digit: each one more multiplies by sixteen, whatever its case. */
  lemma ValueMeans(digits: string, c: char)
    requires AllHex(digits) && IsHex(c)
    ensures Value("") == 0 && Value(digits + [c]) == 16 * Value(digits) + DigitValue(c)
  {
    ParseSnoc(0, digits, c);
  }

  /** The form the HTTP interfaces insist on: fourteen decimal digits. */
  method CheckDeviceIdStrFmt(s: string) returns (ok: bool)
    ensures ok <==> |s| == DIGITS && forall i :: 0 <= i < |s| ==> '0' <= s[i] <= '9'
  {
    if |s| != 14 {
      return false;
    }
    for i := 0 to 14
      invariant forall k :: 0 <= k < i ==> '0' <= s[k] <= '9'
    {
      if !('0' <= s[i] <= '9') {
        return false;
      }
    }
    return true;
  }
}
