/** The textual load settings and the options check at construction. */
module Settings {
  import opened Decimal
  import opened Cards

  datatype Result<T> = Ok(value: T) | Err

  // ----- text -----

  /** White space as the Unicode property has it. */
  predicate IsSpace(c: char) {
    || ('\t' <= c <= '\r') || c == ' ' || c == '\U{85}' || c == '\U{A0}' || c == '\U{1680}'
    || ('\U{2000}' <= c <= '\U{200A}') || c == '\U{2028}' || c == '\U{2029}' || c == '\U{202F}'
    || c == '\U{205F}' || c == '\U{3000}'
  }

  predicate AllSpace(s: string) {
    forall k :: 0 <= k < |s| ==> IsSpace(s[k])
  }

  function TrimLeft(s: string): string {
    if s != "" && IsSpace(s[0]) then TrimLeft(s[1..]) else s
  }

  function TrimRight(s: string): string {
    if s != "" && IsSpace(s[|s| - 1]) then TrimRight(s[..|s| - 1]) else s
  }

  function Trim(s: string): string {
    TrimRight(TrimLeft(s))
  }

  /** The parts between commas. */
  function Split(s: string): (parts: seq<string>)
    ensures |parts| > 0
  {
    if s == "" then [""]
    else
      var rest := Split(s[1..]);
      if s[0] == ',' then [""] + rest else [[s[0]] + rest[0]] + rest[1..]
  }

  predicate IsDigits(s: string) {
    forall k :: 0 <= k < |s| ==> '0' <= s[k] <= '9'
  }

  /** The number a digit string denotes. */
  function Value(s: string): nat
    requires IsDigits(s)
  {
    if s == "" then 0 else Value(s[..|s| - 1]) * 10 + (s[|s| - 1] - '0') as nat
  }

  const MAX_UINT32: nat := 0xFFFF_FFFF
  const MAX_INT32: nat := 0x7FFF_FFFF

  /** Unsigned 32-bit numbers in base ten: digits only, no sign. */
  function ParseUint(s: string): Result<int> {
    if s == "" || !IsDigits(s) || Value(s) > MAX_UINT32 then Err else Ok(Value(s))
  }

  /** Signed 32-bit numbers in base ten with an optional sign. */
  function ParseInt(s: string): Result<int> {
    if s == "" then Err else
    var negative := s[0] == '-';
    var digits := if negative || s[0] == '+' then s[1..] else s;
    match ParseUint(digits)
    case Err => Err
    case Ok(n) =>
      if negative then (if n > MAX_INT32 + 1 then Err else Ok(-n))
      else if n > MAX_INT32 then Err else Ok(n)
  }

  // ----- the two settings -----

  datatype Clocks = Clocks(min: int, max: int, present: bool)

  datatype CoreOffset = CoreOffset(mhz: int, present: bool)

  /** One clock value in its allowed range. */
  function ClockValue(part: string): Result<int> {
    match ParseUint(Trim(part))
    case Err => Err
    case Ok(n) => if n < 100 || n > 5000 then Err else Ok(n)
  }

  function ClockSetting(text: string): Result<Clocks> {
    var value := Trim(text);
    if value == "" then Ok(Clocks(0, 0, false)) else
    var parts := Split(value);
    if |parts| > 2 || exists k :: 0 <= k < |parts| && ClockValue(parts[k]).Err? then Err
    else
      var low := ClockValue(parts[0]).value;
      var high := ClockValue(parts[|parts| - 1]).value;
      if low > high then Err else Ok(Clocks(low, high, true))
  }

  /** The clock setting: nothing, one value, or a pair. */
  method ParseClock(text: string) returns (r: Result<Clocks>)
    ensures r == ClockSetting(text)
    ensures r.Ok? && r.value.present ==> 100 <= r.value.min <= r.value.max <= 5000
  {
    var value := Trim(text);
    if value == "" { return Ok(Clocks(0, 0, false)); }
    var parts := Split(value);
    if |parts| > 2 { return Err; }
    var values: seq<int> := [];
    for index := 0 to |parts|
      invariant |values| == index
      invariant forall k :: 0 <= k < index ==> ClockValue(parts[k]) == Ok(values[k]) && 100 <= values[k] <= 5000
    {
      var parsed := ParseUint(Trim(parts[index]));
      if parsed.Err? || parsed.value < 100 || parsed.value > 5000 { return Err; }
      values := values + [parsed.value];
    }
    if |values| == 1 { return Ok(Clocks(values[0], values[0], true)); }
    if values[0] > values[1] { return Err; }
    r := Ok(Clocks(values[0], values[1], true));
  }

  function ParseCoreOffset(text: string): (r: Result<CoreOffset>)
    ensures r.Ok? ==> -2000 <= r.value.mhz <= 2000 && (r.value.present <==> Trim(text) != "")
  {
    var value := Trim(text);
    if value == "" then Ok(CoreOffset(0, false)) else
    match ParseInt(value)
    case Err => Err
    case Ok(n) => if n < -2000 || n > 2000 then Err else Ok(CoreOffset(n, true))
  }

  // ----- printing and parsing -----

  lemma {:induction false} ValueOfDigits(n: nat)
    ensures IsDigits(Digits(n)) && Value(Digits(n)) == n
    decreases n
  {
    if n >= 10 {
      ValueOfDigits(n / 10);
      var s := Digits(n);
      assert s[..|s| - 1] == Digits(n / 10);
    } else {
      var s := Digits(n);
      assert s[..|s| - 1] == "";
    }
  }

  lemma {:induction false} TrimLeftPads(pad: string, core: string)
    requires AllSpace(pad) && core != "" && !IsSpace(core[0])
    ensures TrimLeft(pad + core) == core
    decreases |pad|
  {
    if pad == "" {
      assert pad + core == core;
    } else {
      assert (pad + core)[1..] == pad[1..] + core;
      TrimLeftPads(pad[1..], core);
    }
  }

  lemma {:induction false} TrimRightPads(core: string, pad: string)
    requires AllSpace(pad) && core != "" && !IsSpace(core[|core| - 1])
    ensures TrimRight(core + pad) == core
    decreases |pad|
  {
    if pad == "" {
      assert core + pad == core;
    } else {
      assert (core + pad)[..|core + pad| - 1] == core + pad[..|pad| - 1];
      TrimRightPads(core, pad[..|pad| - 1]);
    }
  }

  /** Trimming undoes any padding of a text that neither starts nor ends with a space. */
  lemma TrimPads(before: string, core: string, after: string)
    requires AllSpace(before) && AllSpace(after)
    requires core != "" && !IsSpace(core[0]) && !IsSpace(core[|core| - 1])
    ensures Trim(before + core + after) == core
  {
    assert before + core + after == before + (core + after);
    TrimLeftPads(before, core + after);
    TrimRightPads(core, after);
  }

  predicate CommaFree(s: string) {
    forall k :: 0 <= k < |s| ==> s[k] != ','
  }

  lemma SpacesCommaFree(s: string)
    requires AllSpace(s)
    ensures CommaFree(s)
  {
  }

  lemma {:induction false} SplitNone(s: string)
    requires CommaFree(s)
    ensures Split(s) == [s]
    decreases |s|
  {
    if s == "" {
    } else {
      SplitNone(s[1..]);
      assert [s[0]] + s[1..] == s;
    }
  }

  lemma {:induction false} SplitOnce(a: string, b: string)
    requires CommaFree(a) && CommaFree(b)
    ensures Split(a + "," + b) == [a, b]
    decreases |a|
  {
    var s := a + "," + b;
    if a == "" {
      assert s[1..] == b;
      SplitNone(b);
    } else {
      assert s[1..] == a[1..] + "," + b;
      SplitOnce(a[1..], b);
      assert [a[0]] + a[1..] == a;
    }
  }

  lemma DigitsPlain(n: nat)
    ensures var s := Digits(n); CommaFree(s) && !IsSpace(s[0]) && !IsSpace(s[|s| - 1])
  {
  }

  lemma PaddedClock(before: string, n: nat, after: string)
    requires AllSpace(before) && AllSpace(after) && 100 <= n <= 5000
    ensures ClockValue(before + Digits(n) + after) == Ok(n)
  {
    DigitsPlain(n);
    TrimPads(before, Digits(n), after);
    ValueOfDigits(n);
  }

  /** A printed pair with white space splits into its two padded parts. */
  lemma PairText(p: string, a: nat, q: string, r: string, b: nat, t: string)
    requires AllSpace(p) && AllSpace(q) && AllSpace(r) && AllSpace(t)
    ensures var value := Trim(p + (Print(a) + q + "," + r + Print(b)) + t);
            value != "" && Split(value) == [Digits(a) + q, r + Digits(b)]
  {
    hide Trim, Split, Digits, IsSpace;
    var left, right := Digits(a) + q, r + Digits(b);
    var core := Digits(a) + q + "," + r + Digits(b);
    DigitsPlain(a);
    DigitsPlain(b);
    assert core[0] == Digits(a)[0] && core[|core| - 1] == Digits(b)[|Digits(b)| - 1];
    TrimPads(p, core, t);
    SpacesCommaFree(q);
    SpacesCommaFree(r);
    assert CommaFree(left) && CommaFree(right);
    assert core == left + "," + right;
    SplitOnce(left, right);
  }

  /** Any pair 100 <= a <= b <= 5000, printed in decimal with a comma and with white space
      around the text and around the comma, is read back. */
  lemma ClockPairRoundTrip(p: string, a: nat, q: string, r: string, b: nat, t: string)
    requires AllSpace(p) && AllSpace(q) && AllSpace(r) && AllSpace(t)
    requires 100 <= a <= b <= 5000
    ensures ClockSetting(p + (Print(a) + q + "," + r + Print(b)) + t) == Ok(Clocks(a, b, true))
  {
    hide Trim, Split, ClockValue, Digits, IsSpace;
    var left, right := Digits(a) + q, r + Digits(b);
    PairText(p, a, q, r, b, t);
    PaddedClock("", a, q);
    assert "" + Digits(a) + q == left;
    PaddedClock(r, b, "");
    assert r + Digits(b) + "" == right;
    assert ClockValue(left).Ok? && ClockValue(right).Ok?;
  }

  /** A single value stands for both bounds. */
  lemma ClockRoundTrip(p: string, a: nat, t: string)
    requires AllSpace(p) && AllSpace(t) && 100 <= a <= 5000
    ensures ClockSetting(p + Print(a) + t) == Ok(Clocks(a, a, true))
  {
    DigitsPlain(a);
    TrimPads(p, Digits(a), t);
    SplitNone(Digits(a));
    PaddedClock("", a, "");
    assert "" + Digits(a) + "" == Digits(a);
  }

  lemma ParsePrinted(n: int)
    requires -2000 <= n <= 2000
    ensures ParseInt(Print(n)) == Ok(n)
    ensures Print(n) != "" && !IsSpace(Print(n)[0]) && !IsSpace(Print(n)[|Print(n)| - 1])
  {
    hide Digits, Value, IsSpace;
    var m: nat := if n < 0 then -n else n;
    var s := Digits(m);
    DigitsPlain(m);
    ValueOfDigits(m);
    NotSpace();
    if n < 0 {
      assert Print(n)[1..] == s && Print(n)[|Print(n)| - 1] == s[|s| - 1];
    }
  }

  lemma NotSpace()
    ensures !IsSpace('-')
  {
  }

  /** Any offset in range, printed with its sign and padded, is read back. */
  lemma OffsetRoundTrip(p: string, n: int, t: string)
    requires AllSpace(p) && AllSpace(t) && -2000 <= n <= 2000
    ensures ParseCoreOffset(p + Print(n) + t) == Ok(CoreOffset(n, true))
  {
    hide ParseInt, Print, IsSpace;
    ParsePrinted(n);
    TrimPads(p, Print(n), t);
  }

  /** With an explicit plus sign too. */
  lemma PlusRoundTrip(p: string, n: nat, t: string)
    requires AllSpace(p) && AllSpace(t) && n <= 2000
    ensures ParseCoreOffset(p + ("+" + Print(n)) + t) == Ok(CoreOffset(n, true))
  {
    hide Digits, Value;
    var s := Digits(n);
    var core := "+" + Print(n);
    DigitsPlain(n);
    ValueOfDigits(n);
    assert core[1..] == s && core[|core| - 1] == s[|s| - 1] && core[0] == '+';
    TrimPads(p, core, t);
  }

  // ----- which texts are accepted -----

  /** A text that, without outer white space, is a number in decimal digits. */
  ghost predicate Numeral(part: string, n: int) {
    Trim(part) != "" && IsDigits(Trim(part)) && Value(Trim(part)) == n
  }

  lemma ClockValueIff(part: string, n: int)
    ensures ClockValue(part) == Ok(n) <==> Numeral(part, n) && 100 <= n <= 5000
  {
  }

  function Join(parts: seq<string>): string
    requires |parts| > 0
  {
    if |parts| == 1 then parts[0] else parts[0] + "," + Join(parts[1..])
  }

  /** Splitting finds the comma-free parts between the commas. */
  lemma {:induction false} SplitJoins(s: string)
    ensures Join(Split(s)) == s
    ensures forall k :: 0 <= k < |Split(s)| ==> CommaFree(Split(s)[k])
    decreases |s|
  {
    if s == "" {
    } else {
      var rest := Split(s[1..]);
      SplitJoins(s[1..]);
      assert s == [s[0]] + s[1..];
      if s[0] == ',' {
        assert Split(s)[1..] == rest;
        assert forall k :: 1 <= k < |Split(s)| ==> Split(s)[k] == rest[k - 1];
      } else {
        assert Split(s)[1..] == rest[1..];
        assert forall k :: 1 <= k < |Split(s)| ==> Split(s)[k] == rest[k];
        if |rest| > 1 {
          assert [s[0]] + (rest[0] + "," + Join(rest[1..])) == ([s[0]] + rest[0]) + "," + Join(rest[1..]);
        }
      }
    }
  }

  /** The text writes the bounds `a` and `b`: one number for both, or two with a comma. */
  ghost predicate Writes(text: string, a: int, b: int) {
    var core := Trim(text);
    || (CommaFree(core) && Numeral(core, a) && a == b)
    || (exists left, right :: WritesPair(core, left, right, a, b))
  }

  ghost predicate WritesPair(core: string, left: string, right: string, a: int, b: int) {
    && core == left + "," + right && CommaFree(left) && CommaFree(right)
    && Numeral(left, a) && Numeral(right, b)
  }

  /** A clock setting is in force exactly if the text writes two ordered bounds in range, it
      is absent exactly for a blank text, and every other text is refused. */
  lemma ClockAcceptedIff(text: string, a: int, b: int)
    ensures ClockSetting(text) == Ok(Clocks(a, b, true)) <==> Writes(text, a, b) && 100 <= a <= b <= 5000
    ensures (ClockSetting(text).Ok? && !ClockSetting(text).value.present) <==> Trim(text) == ""
  {
    hide Trim, Split, ClockValue, Numeral, Join;
    var core := Trim(text);
    if core == "" {
      BlankWritesNothing(text, a, b);
    } else {
      if ClockSetting(text) == Ok(Clocks(a, b, true)) { AcceptedWrites(text, a, b); }
      if Writes(text, a, b) && 100 <= a <= b <= 5000 { WrittenAccepted(text, a, b); }
    }
  }

  lemma BlankWritesNothing(text: string, a: int, b: int)
    requires Trim(text) == ""
    ensures !Writes(text, a, b)
  {
  }

  lemma AcceptedWrites(text: string, a: int, b: int)
    requires ClockSetting(text) == Ok(Clocks(a, b, true))
    ensures Writes(text, a, b) && 100 <= a <= b <= 5000
  {
    hide Trim, Split, ClockValue, Numeral;
    var core := Trim(text);
    var parts := Split(core);
    SplitJoins(core);
    ClockValueIff(parts[0], a);
    ClockValueIff(parts[|parts| - 1], b);
    if |parts| == 1 {
      assert parts[0] == core;
    } else {
      assert Join(parts) == parts[0] + "," + Join(parts[1..]) == parts[0] + "," + parts[1];
      assert WritesPair(core, parts[0], parts[1], a, b);
    }
  }

  lemma WrittenAccepted(text: string, a: int, b: int)
    requires Writes(text, a, b) && 100 <= a <= b <= 5000 && Trim(text) != ""
    ensures ClockSetting(text) == Ok(Clocks(a, b, true))
  {
    hide Trim, Split, ClockValue, Numeral;
    var core := Trim(text);
    if CommaFree(core) && Numeral(core, a) && a == b {
      SplitNone(core);
      ClockValueIff(core, a);
    } else {
      var left, right :| WritesPair(core, left, right, a, b);
      SplitOnce(left, right);
      ClockValueIff(left, a);
      ClockValueIff(right, b);
      forall k | 0 <= k < |Split(core)| ensures ClockValue(Split(core)[k]).Ok? { }
    }
  }

  /** A pair in the wrong order is refused. */
  lemma ReversedRefused(p: string, a: nat, q: string, r: string, b: nat, t: string)
    requires AllSpace(p) && AllSpace(q) && AllSpace(r) && AllSpace(t)
    requires 100 <= b < a <= 5000
    ensures ClockSetting(p + (Print(a) + q + "," + r + Print(b)) + t) == Err
  {
    hide Trim, Split, ClockValue, Digits, IsSpace;
    var left, right := Digits(a) + q, r + Digits(b);
    PairText(p, a, q, r, b, t);
    PaddedClock("", a, q);
    assert "" + Digits(a) + q == left;
    PaddedClock(r, b, "");
    assert r + Digits(b) + "" == right;
  }

  function Commas(s: string): nat {
    if s == "" then 0 else Commas(s[1..]) + if s[0] == ',' then 1 else 0
  }

  lemma {:induction false} SplitCounts(s: string)
    ensures |Split(s)| == Commas(s) + 1
    decreases |s|
  {
    if s == "" {
    } else {
      SplitCounts(s[1..]);
    }
  }

  lemma {:induction false} CommasJoin(a: string, b: string)
    ensures Commas(a + b) == Commas(a) + Commas(b)
    decreases |a|
  {
    if a == "" {
      assert a + b == b;
    } else {
      assert (a + b)[1..] == a[1..] + b;
      CommasJoin(a[1..], b);
    }
  }

  lemma {:induction false} TrimLeftCommas(s: string)
    ensures Commas(TrimLeft(s)) == Commas(s)
    decreases |s|
  {
    if s == "" || !IsSpace(s[0]) {
    } else {
      TrimLeftCommas(s[1..]);
    }
  }

  lemma {:induction false} TrimRightCommas(s: string)
    ensures Commas(TrimRight(s)) == Commas(s)
    decreases |s|
  {
    if s == "" || !IsSpace(s[|s| - 1]) {
    } else {
      var rest := s[..|s| - 1];
      TrimRightCommas(rest);
      assert s == rest + [s[|s| - 1]];
      CommasJoin(rest, [s[|s| - 1]]);
      assert Commas([s[|s| - 1]]) == 0;
    }
  }

  /** More than two parts are refused, whatever they are. */
  lemma ManyPartsRefused(text: string)
    requires Commas(text) >= 2
    ensures ClockSetting(text) == Err
  {
    TrimLeftCommas(text);
    TrimRightCommas(TrimLeft(text));
    SplitCounts(Trim(text));
  }

  /** A part that is not a number from 100 to 5000 is refused, alone or in a pair. */
  lemma BadPartRefused(text: string, left: string, right: string)
    requires Trim(text) == left + "," + right && CommaFree(left) && CommaFree(right)
    requires
      || (forall n :: Numeral(left, n) ==> n < 100 || n > 5000)
      || (forall n :: Numeral(right, n) ==> n < 100 || n > 5000)
    ensures ClockSetting(text) == Err
  {
    hide Trim, Split, Numeral, ClockValue;
    SplitOnce(left, right);
    if ClockValue(left).Ok? { ClockValueIff(left, ClockValue(left).value); }
    if ClockValue(right).Ok? { ClockValueIff(right, ClockValue(right).value); }
    assert Split(Trim(text))[0] == left && Split(Trim(text))[1] == right;
  }

  lemma BadValueRefused(text: string)
    requires Trim(text) != "" && CommaFree(Trim(text))
    requires forall n :: Numeral(Trim(text), n) ==> n < 100 || n > 5000
    ensures ClockSetting(text) == Err
  {
    hide Trim, Split, Numeral, ClockValue;
    var core := Trim(text);
    SplitNone(core);
    if ClockValue(core).Ok? { ClockValueIff(core, ClockValue(core).value); }
    assert Split(core)[0] == core;
  }

  /** A text that is a number in decimal digits, with at most one sign in front. */
  ghost predicate SignedNumeral(core: string, n: int) {
    && core != ""
    && var digits := if core[0] == '-' || core[0] == '+' then core[1..] else core;
    && digits != "" && IsDigits(digits)
    && var value: int := Value(digits);
    n == if core[0] == '-' then -value else value
  }

  /** An offset is in force exactly if the text is a signed number in range, it is absent
      exactly for a blank text, and every other text is refused. */
  lemma OffsetAcceptedIff(text: string, n: int)
    ensures ParseCoreOffset(text) == Ok(CoreOffset(n, true)) <==> SignedNumeral(Trim(text), n) && -2000 <= n <= 2000
    ensures (ParseCoreOffset(text).Ok? && !ParseCoreOffset(text).value.present) <==> Trim(text) == ""
  {
    hide Trim, Value;
  }

  // ----- construction -----

  datatype Options = Options(
    poll: int, idleAfter: int, utilThreshold: U32, fanAutoTemp: U32, loadClock: string, loadCoreOffset: string)

  /** The configuration that accepted options lead to. */
  function Configured(gpus: seq<Gpu>, o: Options): (r: Result<Config>)
    ensures r.Err? <==>
      || o.poll <= 0 || o.idleAfter <= 0
      || ClockSetting(o.loadClock).Err? || ParseCoreOffset(o.loadCoreOffset).Err?
    ensures r.Ok? ==>
      var c := r.value;
      && c.gpus == gpus && c.idleAfter == o.idleAfter && 0 < c.idleAfter && c.utilThreshold == o.utilThreshold
      && c.fanAutoTemp == (if o.fanAutoTemp == 0 then 55 else o.fanAutoTemp)
      && ClockSetting(o.loadClock) == Ok(Clocks(c.clockMin, c.clockMax, c.hasClock))
      && ParseCoreOffset(o.loadCoreOffset) == Ok(CoreOffset(c.coreOffset, c.hasCoreOffset))
  {
    var clocks, offset := ClockSetting(o.loadClock), ParseCoreOffset(o.loadCoreOffset);
    if o.poll <= 0 || o.idleAfter <= 0 || clocks.Err? || offset.Err? then Err
    else
      ClockInRange(o.loadClock);
      var c, f := clocks.value, offset.value;
      Ok(Config(gpus, o.idleAfter, o.utilThreshold, if o.fanAutoTemp == 0 then 55 else o.fanAutoTemp,
                c.present, c.min, c.max, f.present, f.mhz))
  }

  lemma ClockInRange(text: string)
    requires ClockSetting(text).Ok?
    ensures var c := ClockSetting(text).value;
            if c.present then 100 <= c.min <= c.max <= 5000 else c.min == c.max == 0
  {
  }

  /** Options as an administrator writes them, with any white space, reach the configuration
      unchanged: the governor restores exactly these clocks and this offset. */
  lemma ConfiguredAsWritten(gpus: seq<Gpu>, o: Options, a: nat, b: nat, n: int, pads: seq<string>)
    requires o.poll > 0 && o.idleAfter > 0 && 100 <= a <= b <= 5000 && -2000 <= n <= 2000
    requires |pads| == 6 && forall k :: 0 <= k < 6 ==> AllSpace(pads[k])
    requires o.loadClock == pads[0] + (Print(a) + pads[1] + "," + pads[2] + Print(b)) + pads[3]
    requires o.loadCoreOffset == pads[4] + Print(n) + pads[5]
    ensures var r := Configured(gpus, o);
            && r.Ok? && r.value.hasClock && r.value.clockMin == a && r.value.clockMax == b
            && r.value.hasCoreOffset && r.value.coreOffset == n
            && r.value.gpus == gpus && r.value.idleAfter == o.idleAfter && r.value.utilThreshold == o.utilThreshold
  {
    hide ClockSetting, ParseCoreOffset, Print, AllSpace;
    ClockPairRoundTrip(pads[0], a, pads[1], pads[2], b, pads[3]);
    OffsetRoundTrip(pads[4], n, pads[5]);
  }

  /** The constructor's checks and what it keeps of the options. */
  method NewConfig(gpus: seq<Gpu>, o: Options) returns (r: Result<Config>)
    ensures r == Configured(gpus, o)
    ensures r.Ok? ==>
      && ClockSetting(o.loadClock) == Ok(Clocks(r.value.clockMin, r.value.clockMax, r.value.hasClock))
      && ParseCoreOffset(o.loadCoreOffset) == Ok(CoreOffset(r.value.coreOffset, r.value.hasCoreOffset))
      && (r.value.hasClock ==> 100 <= r.value.clockMin <= r.value.clockMax <= 5000)
      && -2000 <= r.value.coreOffset <= 2000
  {
    if o.poll <= 0 || o.idleAfter <= 0 { return Err; }
    var fanAutoTemp := if o.fanAutoTemp == 0 then 55 else o.fanAutoTemp;
    var clocks := ParseClock(o.loadClock);
    if clocks.Err? { return Err; }
    var offset := ParseCoreOffset(o.loadCoreOffset);
    if offset.Err? { return Err; }
    var c, f := clocks.value, offset.value;
    r := Ok(Config(gpus, o.idleAfter, o.utilThreshold, fanAutoTemp, c.present, c.min, c.max, f.present, f.mhz));
  }
}
