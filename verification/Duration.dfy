/** The duration codec of `icalduration.c` (section 3.3.6 of RFC 5545). */
module Duration {
  import opened CText

  const INT_MAX: int := 0x7FFF_FFFF
  const TWO_TO_THE_32: int := 0x1_0000_0000

  /** Conversion of an unsigned result to `int`: wrap-around at 32 bits */
  function ToInt32(x: int): (r: int)
    ensures -INT_MAX - 1 <= r <= INT_MAX
    ensures (r - x) % TWO_TO_THE_32 == 0
  {
    var u := x % TWO_TO_THE_32;
    if u <= INT_MAX then u else u - TWO_TO_THE_32
  }

  datatype Duration = Duration(isNeg: int, weeks: nat, days: nat, hours: nat, minutes: nat, seconds: nat)

  const NULL_DURATION := Duration(0, 0, 0, 0, 0, 0)
  const BAD_DURATION := Duration(-1, 0, 0, 0, 0, 0)

  function Total(d: Duration): nat {
    d.seconds + 60 * (d.minutes + 60 * (d.hours + 24 * (d.days + 7 * d.weeks)))
  }

  /** `icaldurationtype_as_int`: the sum is computed in unsigned arithmetic and converted */
  function AsInt(d: Duration): int {
    var t: int := Total(d);
    ToInt32(if d.isNeg == 1 then -t else t)
  }

  /** `icaldurationtype_from_int`: weeks alone when they divide the time, otherwise mixed units */
  method FromInt(t: int) returns (d: Duration)
    requires -INT_MAX <= t <= INT_MAX
    ensures AsInt(d) == t
    ensures d.isNeg == if t < 0 then 1 else 0
    ensures if t % 604800 == 0 then d.days == d.hours == d.minutes == d.seconds == 0
            else d.weeks == 0 && d.hours < 24 && d.minutes < 60 && d.seconds < 60
  {
    hide Total, ToInt32;
    d := NULL_DURATION;
    var ut := t;
    if t < 0 {
      d := d.(isNeg := 1);
      ut := -t;
      WeeksOfNegative(t);
    }
    var used := 0;
    if ut % 604800 == 0 {
      d := d.(weeks := ut / 604800);
    } else {
      used := used + d.weeks * 604800;
      d := d.(days := (ut - used) / 86400);
      used := used + d.days * 86400;
      assert 0 <= ut - used < 86400;
      d := d.(hours := (ut - used) / 3600);
      used := used + d.hours * 3600;
      assert 0 <= ut - used < 3600;
      d := d.(minutes := (ut - used) / 60);
      used := used + d.minutes * 60;
      d := d.(seconds := ut - used);
    }
    MixedUnits(d, ut);
    InRange(t);
  }

  lemma WeeksOfNegative(t: int)
    ensures t % 604800 == 0 <==> -t % 604800 == 0
  {
  }

  lemma InRange(x: int)
    requires -INT_MAX <= x <= INT_MAX
    ensures ToInt32(x) == x
  {
  }

  lemma MixedUnits(d: Duration, ut: nat)
    requires || (d.weeks * 604800 == ut && d.days == d.hours == d.minutes == d.seconds == 0)
             || (d.weeks == 0 && d.days * 86400 + d.hours * 3600 + d.minutes * 60 + d.seconds == ut)
    ensures Total(d) == ut
  {
  }

  // ------------------------------------------------------------------------------------
  // Decimal numbers

  predicate IsDigit(c: char) {
    '0' <= c <= '9'
  }

  function DigitChar(n: nat): (c: char)
    requires n < 10
    ensures IsDigit(c)
  {
    '0' + n as char
  }

  function DigitValue(c: char): nat
    requires IsDigit(c)
  {
    (c - '0') as int
  }

  /** The text of `%u` */
  function Decimal(n: nat): (s: string)
    ensures s != [] && forall i :: 0 <= i < |s| ==> IsDigit(s[i])
  {
    if n < 10 then [DigitChar(n)] else Decimal(n / 10) + [DigitChar(n % 10)]
  }

  function Value(s: string): nat
    requires forall i :: 0 <= i < |s| ==> IsDigit(s[i])
  {
    if s == [] then 0 else Value(s[..|s| - 1]) * 10 + DigitValue(s[|s| - 1])
  }

  /** How many of the first `max` characters are digits, counted until the first other character */
  function DigitRun(s: string, max: nat): (k: nat)
    ensures k <= max && k <= |s|
    ensures forall i :: 0 <= i < k ==> IsDigit(s[i])
    ensures k < max && k < |s| ==> !IsDigit(s[k])
  {
    if max == 0 || s == [] || !IsDigit(s[0]) then 0 else 1 + DigitRun(s[1..], max - 1)
  }

  /** `sscanf` with `%10d` */
  function Scan(s: string): int {
    ToInt32(Value(s[..DigitRun(s, 10)]))
  }

  lemma {:induction false} ValueOfDecimal(n: nat)
    ensures Value(Decimal(n)) == n
  {
    if n >= 10 {
      ValueOfDecimal(n / 10);
      var s := Decimal(n);
      assert s[..|s| - 1] == Decimal(n / 10);
    }
  }

  function Power10(k: nat): nat {
    if k == 0 then 1 else 10 * Power10(k - 1)
  }

  lemma {:induction false} DecimalLength(n: nat, k: nat)
    requires k > 0 && n < Power10(k)
    ensures |Decimal(n)| <= k
    decreases k
  {
    if n >= 10 {
      assert k > 1 by { assert Power10(1) == 10; }
      DecimalLength(n / 10, k - 1);
    }
  }

  lemma ScanDecimal(n: nat, rest: string)
    requires n < TWO_TO_THE_32 && (rest != [] ==> !IsDigit(rest[0]))
    ensures Scan(Decimal(n) + rest) == ToInt32(n)
  {
    hide Decimal, DigitRun, Value, ToInt32;
    TenDigits();
    DecimalLength(n, 10);
    DigitsOf(Decimal(n), rest, 10);
    ValueOfDecimal(n);
  }

  /** Of a longer number only the first ten digits count */
  lemma TenDigitsCount(digits: string, more: string)
    requires |digits| == 10 && forall i :: 0 <= i < 10 ==> IsDigit(digits[i])
    ensures Scan(digits + more) == ToInt32(Value(digits))
  {
    hide DigitRun, Value, ToInt32;
    var s := digits + more;
    assert forall i :: 0 <= i < 10 ==> s[i] == digits[i];
    assert DigitRun(s, 10) == 10 && s[..10] == digits;
  }

  lemma TenDigits()
    ensures Power10(10) == 10000000000
  {
    assert Power10(2) == 100;
    assert Power10(4) == 10000;
    assert Power10(6) == 1000000;
    assert Power10(8) == 100000000;
  }

  lemma DigitsOf(digits: string, rest: string, max: nat)
    requires |digits| <= max && forall i :: 0 <= i < |digits| ==> IsDigit(digits[i])
    requires rest != [] ==> !IsDigit(rest[0])
    ensures (digits + rest)[..DigitRun(digits + rest, max)] == digits
  {
    var s := digits + rest;
    var k := DigitRun(s, max);
    assert forall i :: 0 <= i < |digits| ==> s[i] == digits[i];
    assert rest != [] ==> s[|digits|] == rest[0];
    assert s[..|digits|] == digits;
  }

  // ------------------------------------------------------------------------------------
  // Printing

  function Segment(n: nat, unit: char): string {
    if n == 0 then "" else Decimal(n) + [unit]
  }

  predicate HasTime(d: Duration) {
    d.hours != 0 || d.minutes != 0 || d.seconds != 0
  }

  /** The printed form: nothing but PT0S for a duration that amounts to 0 */
  function Print(d: Duration): string {
    if AsInt(d) == 0 then "PT0S"
    else
      (if d.isNeg == 1 then "-P" else "P")
      + Segment(d.weeks, 'W') + Segment(d.days, 'D')
      + (if HasTime(d) then "T" else "")
      + Segment(d.hours, 'H') + Segment(d.minutes, 'M') + Segment(d.seconds, 'S')
  }

  /** `append_duration_segment`, called for a number that is not 0 */
  method AppendSegment(buf: string, value: nat, unit: char) returns (buf': string)
    ensures buf' == buf + Segment(value, unit)
  {
    buf' := buf;
    if value != 0 {
      buf' := buf' + Decimal(value);
      buf' := buf' + [unit];
    }
  }

  /** `icaldurationtype_as_ical_string_r` */
  method AsIcalString(d: Duration) returns (buf: string)
    ensures buf == Print(d)
  {
    hide AsInt, Segment;
    buf := "";
    if AsInt(d) == 0 {
      return "PT0S";
    }
    if d.isNeg == 1 {
      buf := buf + "-";
    }
    buf := buf + "P";
    assert buf == if d.isNeg == 1 then "-P" else "P";
    buf := AppendSegment(buf, d.weeks, 'W');
    buf := AppendSegment(buf, d.days, 'D');
    if HasTime(d) {
      buf := buf + "T";
      buf := AppendSegment(buf, d.hours, 'H');
      buf := AppendSegment(buf, d.minutes, 'M');
      buf := AppendSegment(buf, d.seconds, 'S');
    } else {
      NoTime(buf);
    }
  }

  lemma NoTime(buf: string)
    ensures buf + "" + Segment(0, 'H') + Segment(0, 'M') + Segment(0, 'S') == buf
  {
  }

  // ------------------------------------------------------------------------------------
  // Parsing

  /** The variables of the parsing loop */
  datatype State = State(d: Duration, begin: bool, time: bool, date: bool, digits: int)

  const START := State(NULL_DURATION, false, false, false, -1)

  /** An `int` stored in an unsigned field */
  function Unsigned(n: int): nat {
    n % TWO_TO_THE_32
  }

  /** A number for a unit; nothing stands for the error exit */
  function Put(st: State, unit: char, n: nat): Option<State> {
    match unit
    case 'H' =>
      if !st.time || st.d.hours != 0 then None else Some(st.(d := st.d.(hours := n), digits := -1))
    case 'M' =>
      if !st.time || st.d.minutes != 0 then None else Some(st.(d := st.d.(minutes := n), digits := -1))
    case 'S' =>
      if !st.time || st.d.seconds != 0 then None else Some(st.(d := st.d.(seconds := n), digits := -1))
    case 'W' =>
      if st.time || st.date || st.d.weeks != 0 then None else Some(st.(d := st.d.(weeks := n), digits := -1))
    case 'D' =>
      if st.time || st.d.days != 0 then None
      else Some(st.(d := st.d.(days := n), date := true, digits := -1))
    case _ => None
  }

  /** What a unit letter does with the number read before it */
  function Store(st: State, unit: char): Option<State> {
    if st.digits == -1 then None else Put(st, unit, Unsigned(st.digits))
  }

  /** One round of the loop at position `i` */
  function Step(st: State, s: string, i: nat): Option<State>
    requires i < |s|
  {
    var c := s[i];
    if c == '+' then
      if i != 0 || st.begin then None else Some(st)
    else if c == '-' then
      if i != 0 || st.begin then None else Some(st.(d := st.d.(isNeg := 1)))
    else if c == 'P' then
      if i != 0 && i != 1 then None else Some(st.(begin := true))
    else if c == 'T' then
      Some(st.(time := true))
    else if IsDigit(c) then
      if st.digits != -1 then Some(st)
      else if !st.begin then None
      else Some(st.(digits := Scan(s[i..])))
    else Store(st, c)
  }

  function Run(st: State, s: string, i: nat): Duration
    requires i <= |s|
    decreases |s| - i
  {
    if i == |s| then st.d
    else
      match Step(st, s, i)
      case None => BAD_DURATION
      case Some(next) => Run(next, s, i + 1)
  }

  function Parse(s: string): Duration {
    Run(START, s, 0)
  }

  /** `icaldurationtype_from_string` */
  method FromString(str: string) returns (d: Duration)
    ensures d == Parse(str)
  {
    var begin, time, date := false, false, false;
    var digits := -1;
    d := NULL_DURATION;
    for i := 0 to |str|
      invariant Parse(str) == Run(State(d, begin, time, date, digits), str, i)
    {
      match str[i] {
        case '+' =>
          if i != 0 || begin { return BAD_DURATION; }
        case '-' =>
          if i != 0 || begin { return BAD_DURATION; }
          d := d.(isNeg := 1);
        case 'P' =>
          if i != 0 && i != 1 { return BAD_DURATION; }
          begin := true;
        case 'T' =>
          time := true;
        case 'H' =>
          if !time || d.hours != 0 || digits == -1 { return BAD_DURATION; }
          d, digits := d.(hours := Unsigned(digits)), -1;
        case 'M' =>
          if !time || d.minutes != 0 || digits == -1 { return BAD_DURATION; }
          d, digits := d.(minutes := Unsigned(digits)), -1;
        case 'S' =>
          if !time || d.seconds != 0 || digits == -1 { return BAD_DURATION; }
          d, digits := d.(seconds := Unsigned(digits)), -1;
        case 'W' =>
          if time || date || d.weeks != 0 || digits == -1 { return BAD_DURATION; }
          d, digits := d.(weeks := Unsigned(digits)), -1;
        case 'D' =>
          if time || d.days != 0 || digits == -1 { return BAD_DURATION; }
          date := true;
          d, digits := d.(days := Unsigned(digits)), -1;
        case c =>
          if !IsDigit(c) { return BAD_DURATION; }
          // further digits are skipped until the number has been stored
          if digits == -1 {
            if !begin { return BAD_DURATION; }
            digits := Scan(str[i..]);
          }
      }
    }
  }

  // ------------------------------------------------------------------------------------
  // Round trip

  lemma {:induction false} SkipDigits(st: State, s: string, i: nat, j: nat)
    requires i <= j <= |s| && st.digits != -1 && forall k :: i <= k < j ==> IsDigit(s[k])
    ensures Run(st, s, i) == Run(st, s, j)
    decreases j - i
  {
    if i < j {
      SkipDigits(st, s, i + 1, j);
    }
  }

  /**
    The number that a printed unsigned number is read as. The largest one turns into -1, which
    the loop takes for no number, so that it reads again from the second digit.
   */
  function Reread(n: nat): nat {
    if n == TWO_TO_THE_32 - 1 then 294967295 else n
  }

  lemma OneMoreDigit(n: nat, k: nat, c: nat)
    requires Decimal(n) == "4" + Decimal(k) && k > 0 && n > 0 && c < 10
    ensures Decimal(10 * n + c) == "4" + Decimal(10 * k + c)
  {
    assert (10 * n + c) / 10 == n && (10 * k + c) / 10 == k;
    assert "4" + (Decimal(k) + [DigitChar(c)]) == "4" + Decimal(k) + [DigitChar(c)];
  }

  lemma LargestDigits()
    ensures Decimal(TWO_TO_THE_32 - 1) == "4" + Decimal(294967295)
  {
    assert Decimal(42) == "4" + Decimal(2);
    hide Decimal;
    OneMoreDigit(42, 2, 9);
    OneMoreDigit(429, 29, 4);
    OneMoreDigit(4294, 294, 9);
    OneMoreDigit(42949, 2949, 6);
    OneMoreDigit(429496, 29496, 7);
    OneMoreDigit(4294967, 294967, 2);
    OneMoreDigit(42949672, 2949672, 9);
    OneMoreDigit(429496729, 29496729, 5);
  }

  lemma Converted(n: nat)
    requires n < TWO_TO_THE_32
    ensures Unsigned(ToInt32(n)) == n
    ensures ToInt32(n) == -1 <==> n == TWO_TO_THE_32 - 1
  {
  }

  /** The loop reads a printed segment and stores a number */
  lemma TakeSegment(st: State, s: string, i: nat, n: nat, unit: char, rest: string, st': State)
    requires i <= |s| && s[i..] == Segment(n, unit) + rest && n < TWO_TO_THE_32
    requires st.begin && st.digits == -1
    requires unit in "HMSWD"
    requires if n == 0 then st' == st else Store(st.(digits := ToInt32(Reread(n))), unit) == Some(st')
    ensures var j := i + |Segment(n, unit)|; j <= |s| && s[j..] == rest && Run(st, s, i) == Run(st', s, j)
  {
    hide Decimal, Scan, Store, Run, Step, ToInt32;
    Cut(s, i, Segment(n, unit), rest);
    if n == TWO_TO_THE_32 - 1 {
      LargestDigits();
      assert s[i] == s[i..][0] == '4';
      assert s[i..] == Decimal(n) + ([unit] + rest);
      ScanDecimal(n, [unit] + rest);
      Converted(n);
      StepDigit(st, s, i);
      RunStep(st, s, i, st);
      assert s[i + 1..] == s[i..][1..] == Segment(294967295, unit) + rest;
      TakeNumber(st, s, i + 1, 294967295, unit, rest, st');
    } else if n > 0 {
      TakeNumber(st, s, i, n, unit, rest, st');
    }
  }

  lemma TakeNumber(st: State, s: string, i: nat, n: nat, unit: char, rest: string, st': State)
    requires i <= |s| && s[i..] == Segment(n, unit) + rest && 0 < n < TWO_TO_THE_32 - 1
    requires st.begin && st.digits == -1
    requires unit in "HMSWD" && Store(st.(digits := ToInt32(n)), unit) == Some(st')
    ensures var j := i + |Segment(n, unit)|; j <= |s| && s[j..] == rest && Run(st, s, i) == Run(st', s, j)
  {
    hide Decimal, Scan, Store, Run, Step, ToInt32;
    Cut(s, i, Segment(n, unit), rest);
    var digits := Decimal(n);
    var k := i + |digits|;
    assert s[i..] == digits + ([unit] + rest);
    Cut(s, i, digits, [unit] + rest);
    assert s[k] == s[k..][0] == unit;
    ScanDecimal(n, [unit] + rest);
    Converted(n);
    var st1 := st.(digits := ToInt32(n));
    StepDigit(st, s, i);
    RunStep(st, s, i, st1);
    SkipDigits(st1, s, i + 1, k);
    StepUnit(st1, s, k);
    RunStep(st1, s, k, st');
  }

  lemma Cut(s: string, i: nat, a: string, b: string)
    requires i <= |s| && s[i..] == a + b
    ensures i + |a| <= |s| && s[i + |a|..] == b
    ensures forall m :: i <= m < i + |a| ==> s[m] == a[m - i]
  {
    assert s[i + |a|..] == s[i..][|a|..];
    assert forall m :: i <= m < i + |a| ==> s[m] == s[i..][m - i];
  }

  lemma StepDigit(st: State, s: string, i: nat)
    requires i < |s| && IsDigit(s[i]) && st.digits == -1 && st.begin
    ensures Step(st, s, i) == Some(st.(digits := Scan(s[i..])))
  {
    hide Scan;
  }

  lemma StepUnit(st: State, s: string, i: nat)
    requires i < |s| && s[i] in "HMSWD"
    ensures Step(st, s, i) == Store(st, s[i])
  {
    hide Store, Scan;
  }

  lemma RunStep(st: State, s: string, i: nat, st': State)
    requires i < |s| && Step(st, s, i) == Some(st')
    ensures Run(st, s, i) == Run(st', s, i + 1)
  {
    hide Step;
  }

  /** Durations whose fields are unsigned numbers of 32 bits */
  predicate IsUnsigned(d: Duration) {
    && d.weeks < TWO_TO_THE_32 && d.days < TWO_TO_THE_32
    && d.hours < TWO_TO_THE_32 && d.minutes < TWO_TO_THE_32 && d.seconds < TWO_TO_THE_32
  }

  /** No field holds the largest unsigned number, and the sign flag is 0 or 1 */
  predicate IsProper(d: Duration) {
    && 0 <= d.isNeg <= 1
    && forall n :: n in [d.weeks, d.days, d.hours, d.minutes, d.seconds] ==> n != TWO_TO_THE_32 - 1
  }

  function Sign(d: Duration): int {
    if d.isNeg == 1 then 1 else 0
  }

  /** What comes back of a printed duration */
  function RereadAll(d: Duration): Duration {
    Duration(Sign(d), Reread(d.weeks), Reread(d.days), Reread(d.hours), Reread(d.minutes), Reread(d.seconds))
  }

  lemma RereadSame(d: Duration)
    ensures RereadAll(d) == d <==> IsProper(d)
  {
    var fields := [d.weeks, d.days, d.hours, d.minutes, d.seconds];
    assert fields[0] in fields && fields[1] in fields && fields[2] in fields;
    assert fields[3] in fields && fields[4] in fields;
  }

  lemma StoreField(st: State, unit: char, n: nat)
    requires n < TWO_TO_THE_32 - 1
    ensures Store(st.(digits := ToInt32(n)), unit) == Put(st, unit, n)
  {
    hide ToInt32, Unsigned;
    Converted(n);
  }

  lemma ParseDate(st: State, s: string, i: nat, d: Duration, rest: string)
    requires i <= |s| && IsUnsigned(d)
    requires s[i..] == Segment(d.weeks, 'W') + (Segment(d.days, 'D') + rest)
    requires st == State(Duration(Sign(d), 0, 0, 0, 0, 0), true, false, false, -1)
    ensures var j := i + |Segment(d.weeks, 'W')| + |Segment(d.days, 'D')|;
            var dated := Duration(Sign(d), Reread(d.weeks), Reread(d.days), 0, 0, 0);
            && j <= |s| && s[j..] == rest
            && Run(st, s, i) == Run(State(dated, true, false, d.days != 0, -1), s, j)
  {
    hide Segment, Run, ToInt32, Store;
    StoreField(st, 'W', Reread(d.weeks));
    var st1 := st.(d := st.d.(weeks := Reread(d.weeks)));
    TakeSegment(st, s, i, d.weeks, 'W', Segment(d.days, 'D') + rest, st1);
    StoreField(st1, 'D', Reread(d.days));
    var st2 := st1.(d := st1.d.(days := Reread(d.days)), date := d.days != 0);
    TakeSegment(st1, s, i + |Segment(d.weeks, 'W')|, d.days, 'D', rest, st2);
  }

  lemma ParseTime(st: State, s: string, i: nat, d: Duration)
    requires i <= |s| && IsUnsigned(d)
    requires s[i..] == Segment(d.hours, 'H') + (Segment(d.minutes, 'M') + (Segment(d.seconds, 'S') + ""))
    requires st.d == Duration(Sign(d), Reread(d.weeks), Reread(d.days), 0, 0, 0)
    requires st.begin && st.time && st.digits == -1
    ensures Run(st, s, i) == RereadAll(d)
  {
    hide Segment, Run, ToInt32, Store;
    StoreField(st, 'H', Reread(d.hours));
    var st1 := st.(d := st.d.(hours := Reread(d.hours)));
    var i1 := i + |Segment(d.hours, 'H')|;
    TakeSegment(st, s, i, d.hours, 'H', Segment(d.minutes, 'M') + (Segment(d.seconds, 'S') + ""), st1);
    StoreField(st1, 'M', Reread(d.minutes));
    var st2 := st1.(d := st1.d.(minutes := Reread(d.minutes)));
    var i2 := i1 + |Segment(d.minutes, 'M')|;
    TakeSegment(st1, s, i1, d.minutes, 'M', Segment(d.seconds, 'S') + "", st2);
    StoreField(st2, 'S', Reread(d.seconds));
    var st3 := st2.(d := st2.d.(seconds := Reread(d.seconds)));
    TakeSegment(st2, s, i2, d.seconds, 'S', "", st3);
    assert i2 + |Segment(d.seconds, 'S')| == |s|;
    RunEnd(st3, s);
  }

  lemma RunEnd(st: State, s: string)
    ensures Run(st, s, |s|) == st.d
  {
  }

  /** The text of a duration that is not printed as zero, in two parts */
  lemma PrintParts(d: Duration)
    requires AsInt(d) != 0
    ensures Print(d) ==
            (if d.isNeg == 1 then "-P" else "P") + (Segment(d.weeks, 'W') + (Segment(d.days, 'D') + TimePart(d)))
  {
    hide Segment;
  }

  function TimePart(d: Duration): string {
    (if HasTime(d) then "T" else "")
    + (Segment(d.hours, 'H') + (Segment(d.minutes, 'M') + (Segment(d.seconds, 'S') + "")))
  }

  lemma ParseSign(d: Duration, s: string, rest: string)
    requires s == (if d.isNeg == 1 then "-P" else "P") + rest
    ensures Parse(s) ==
            Run(State(Duration(Sign(d), 0, 0, 0, 0, 0), true, false, false, -1), s, if d.isNeg == 1 then 2 else 1)
  {
    hide Run, Store, Scan;
    var st := State(Duration(Sign(d), 0, 0, 0, 0, 0), true, false, false, -1);
    if d.isNeg == 1 {
      var st1 := START.(d := NULL_DURATION.(isNeg := 1));
      assert s[0] == '-' && s[1] == 'P';
      RunStep(START, s, 0, st1);
      RunStep(st1, s, 1, st);
    } else {
      assert s[0] == 'P';
      RunStep(START, s, 0, st);
    }
  }

  /** Every field comes back, except that the largest unsigned number is misread */
  lemma ParsePrinted(d: Duration)
    requires IsUnsigned(d) && AsInt(d) != 0
    ensures Parse(Print(d)) == RereadAll(d)
  {
    hide Segment, Run, Parse, AsInt, Print, Store, Scan, Reread;
    PrintParts(d);
    var s := Print(d);
    var i := if d.isNeg == 1 then 2 else 1;
    var rest := Segment(d.weeks, 'W') + (Segment(d.days, 'D') + TimePart(d));
    ParseSign(d, s, rest);
    assert s[i..] == rest;
    var st := State(Duration(Sign(d), 0, 0, 0, 0, 0), true, false, false, -1);
    ParseDate(st, s, i, d, TimePart(d));
    var j := i + |Segment(d.weeks, 'W')| + |Segment(d.days, 'D')|;
    var dated := Duration(Sign(d), Reread(d.weeks), Reread(d.days), 0, 0, 0);
    ParseTimePart(State(dated, true, false, d.days != 0, -1), s, j, d);
  }

  lemma ParseTimePart(st: State, s: string, j: nat, d: Duration)
    requires j <= |s| && IsUnsigned(d) && s[j..] == TimePart(d)
    requires st.d == Duration(Sign(d), Reread(d.weeks), Reread(d.days), 0, 0, 0)
    requires st.begin && !st.time && st.digits == -1
    ensures Run(st, s, j) == RereadAll(d)
  {
    hide Run;
    if HasTime(d) {
      hide Segment, Store, Scan;
      assert s[j] == s[j..][0] == 'T';
      RunStep(st, s, j, st.(time := true));
      assert s[j + 1..] == s[j..][1..];
      ParseTime(st.(time := true), s, j + 1, d);
    } else {
      assert s[j..] == "" && j == |s|;
      RunEnd(st, s);
    }
  }

  /**
    Printing and parsing a duration is the identity exactly when its sign flag is 0 or 1, no
    field holds the largest unsigned number and the total does not vanish modulo two to the 32,
    or when the duration is the null duration.
   */
  lemma DurationRoundTrip(d: Duration)
    requires IsUnsigned(d)
    ensures Parse(Print(d)) == d <==> (IsProper(d) && Total(d) % TWO_TO_THE_32 != 0) || d == NULL_DURATION
  {
    hide Parse, Print, Total, IsProper, RereadAll;
    AsIntZero(d);
    if AsInt(d) != 0 {
      ParsePrinted(d);
      RereadSame(d);
      NullTotal();
    } else {
      hide AsInt;
      ParseZero(d);
    }
  }

  lemma NullTotal()
    ensures Total(NULL_DURATION) == 0
  {
  }

  lemma AsIntZero(d: Duration)
    ensures AsInt(d) == 0 <==> Total(d) % TWO_TO_THE_32 == 0
  {
    hide Total;
  }

  lemma ParseZero(d: Duration)
    requires AsInt(d) == 0
    ensures Parse(Print(d)) == NULL_DURATION
  {
    var s := "PT0S";
    hide Run, Store, AsInt;
    var st := START.(begin := true);
    RunStep(START, s, 0, st);
    var st1 := st.(time := true);
    RunStep(st, s, 1, st1);
    assert s[2..] == Decimal(0) + "S";
    ScanDecimal(0, "S");
    var st2 := st1.(digits := 0);
    StepDigit(st1, s, 2);
    RunStep(st1, s, 2, st2);
    StepUnit(st2, s, 3);
    StoreZero();
    RunStep(st2, s, 3, st1);
    RunEnd(st1, s);
  }

  lemma StoreZero()
    ensures Store(State(NULL_DURATION, true, true, false, 0), 'S') == Some(State(NULL_DURATION, true, true, false, -1))
  {
  }

  lemma TimeTotal(neg: int, minutes: nat, seconds: nat)
    ensures Total(Duration(neg, 0, 0, 0, minutes, seconds)) == 60 * minutes + seconds
  {
  }

  /** Two durations that do not come back: a negative nothing, and one of 2^32 seconds */
  lemma ZeroExamples()
    ensures Parse(Print(Duration(1, 0, 0, 0, 0, 0))) != Duration(1, 0, 0, 0, 0, 0)
    ensures Parse(Print(Duration(0, 0, 0, 0, 71582788, 16))) != Duration(0, 0, 0, 0, 71582788, 16)
  {
    hide Parse, Print, IsProper, Total;
    TimeTotal(1, 0, 0);
    TimeTotal(0, 71582788, 16);
    DurationRoundTrip(Duration(1, 0, 0, 0, 0, 0));
    DurationRoundTrip(Duration(0, 0, 0, 0, 71582788, 16));
  }

  /** Units from the largest to the smallest, and the T before those of time */
  lemma PrintExamples()
    ensures Print(Duration(1, 1, 2, 3, 4, 5)) == "-P1W2DT3H4M5S"
    ensures Print(Duration(0, 0, 10, 0, 0, 0)) == "P10D"
  {
    SmallTotals();
    assert Decimal(10) == "10";
  }

  lemma SmallTotals()
    ensures AsInt(Duration(1, 1, 2, 3, 4, 5)) != 0 && AsInt(Duration(0, 0, 10, 0, 0, 0)) != 0
  {
  }

  /** The largest number of seconds loses its first digit */
  lemma LargestExample()
    ensures Parse(Print(Duration(0, 0, 0, 0, 0, 4294967295))) == Duration(0, 0, 0, 0, 0, 294967295)
  {
    hide Parse, Print;
    ParsePrinted(Duration(0, 0, 0, 0, 0, 4294967295));
  }

  // ------------------------------------------------------------------------------------
  // Signs, and text that is refused

  function Negated(d: Duration): Duration {
    d.(isNeg := 1)
  }

  function Flip(st: State): State {
    st.(d := Negated(st.d))
  }

  /** The same text at another place of the string, with or without the sign flag */
  lemma StepElsewhere(st: State, s: string, i: nat, s': string, i': nat)
    requires 0 < i < |s| && 0 < i' < |s'| && s[i..] == s'[i'..] && s[i] != 'P'
    ensures Step(st, s', i') == Step(st, s, i)
    ensures Step(Flip(st), s', i') == match Step(st, s, i)
                                      case None => None
                                      case Some(next) => Some(Flip(next))
  {
    hide Scan;
    assert s[i] == s[i..][0] && s'[i'] == s'[i'..][0];
  }

  lemma {:induction false} RunElsewhere(st: State, s: string, i: nat, s': string, i': nat)
    requires 0 < i <= |s| && 0 < i' <= |s'| && s[i..] == s'[i'..] && 'P' !in s[i..] && st.d.isNeg == 0
    ensures Run(st, s', i') == Run(st, s, i)
    ensures Run(Flip(st), s', i') == if Run(st, s, i) == BAD_DURATION then BAD_DURATION else Negated(Run(st, s, i))
    decreases |s| - i
  {
    hide Step;
    assert |s| - i == |s'| - i';
    if i < |s| {
      assert s[i] == s[i..][0];
      StepElsewhere(st, s, i, s', i');
      assert s[i + 1..] == s[i..][1..] == s'[i' + 1..];
      match Step(st, s, i)
      case None =>
      case Some(next) =>
        SignKept(st, s, i);
        RunElsewhere(next, s, i + 1, s', i' + 1);
    }
  }

  lemma SignKept(st: State, s: string, i: nat)
    requires 0 < i < |s| && Step(st, s, i).Some?
    ensures Step(st, s, i).value.d.isNeg == st.d.isNeg
  {
    hide Scan;
  }

  /** A plus sign changes nothing, and a minus sign sets the flag of what is accepted */
  lemma Signs(t: string)
    requires 'P' !in t
    ensures Parse("+P" + t) == Parse("P" + t)
    ensures Parse("-P" + t) == if Parse("P" + t) == BAD_DURATION then BAD_DURATION else Negated(Parse("P" + t))
  {
    hide Run, Store, Scan;
    var plain, plus, minus := "P" + t, "+P" + t, "-P" + t;
    var st := START.(begin := true);
    RunStep(START, plain, 0, st);
    RunStep(START, plus, 0, START);
    RunStep(START, plus, 1, st);
    RunStep(START, minus, 0, Flip(START));
    RunStep(Flip(START), minus, 1, Flip(st));
    assert plain[1..] == t && plus[2..] == t && minus[2..] == t;
    RunElsewhere(st, plain, 1, plus, 2);
    RunElsewhere(st, plain, 1, minus, 2);
  }

  /** The state after the first `i` characters; nothing when one of them was refused */
  function After(s: string, i: nat): Option<State>
    requires i <= |s|
  {
    if i == 0 then Some(START)
    else
      match After(s, i - 1)
      case None => None
      case Some(st) => Step(st, s, i - 1)
  }

  lemma {:induction false} RefusedIsBad(s: string, i: nat)
    requires i <= |s|
    ensures After(s, i).None? ==> Parse(s) == BAD_DURATION
    ensures After(s, i).Some? ==> Parse(s) == Run(After(s, i).value, s, i)
    decreases i
  {
    hide Step;
    if i > 0 {
      RefusedIsBad(s, i - 1);
    }
  }

  /** No number was read since the last unit */
  predicate NoNumber(s: string, i: nat)
    requires i <= |s|
  {
    i == 0 || s[i - 1] in "HMSWD" || (!IsDigit(s[i - 1]) && NoNumber(s, i - 1))
  }

  /** What the flags say about the characters that were read */
  lemma {:induction false} FlagsSay(s: string, i: nat)
    requires i <= |s| && After(s, i).Some?
    ensures var st := After(s, i).value;
            && (st.begin <==> 'P' in s[..i]) && (st.time <==> 'T' in s[..i]) && (st.date <==> 'D' in s[..i])
            && (NoNumber(s, i) ==> st.digits == -1)
    decreases i
  {
    if i > 0 {
      FlagsSay(s, i - 1);
      assert s[..i] == s[..i - 1] + [s[i - 1]];
      OneStep(After(s, i - 1).value, s, i - 1);
    }
  }

  lemma OneStep(st: State, s: string, i: nat)
    requires i < |s| && Step(st, s, i).Some?
    ensures var next := Step(st, s, i).value;
            && (next.begin <==> st.begin || s[i] == 'P') && (next.time <==> st.time || s[i] == 'T')
            && (next.date <==> st.date || s[i] == 'D')
            && (s[i] in "HMSWD" ==> next.digits == -1)
            && (s[i] !in "HMSWD" && !IsDigit(s[i]) ==> next.digits == st.digits)
  {
    hide Scan;
  }

  /** A character that cannot stand where it stands */
  predicate IsMisplaced(s: string, i: nat)
    requires i < |s|
  {
    var c := s[i];
    || (c !in "+-PT0123456789HMSWD")
    || (c in "+-" && i > 0)
    || (c == 'P' && i > 1)
    || (IsDigit(c) && 'P' !in s[..i] && NoNumber(s, i))
    || (c in "HMSWD" && NoNumber(s, i))
    || (c in "HMS" && 'T' !in s[..i])
    || (c in "WD" && 'T' in s[..i])
    || (c == 'W' && 'D' in s[..i])
  }

  /** Text with such a character is refused */
  lemma MisplacedIsBad(s: string, i: nat)
    requires i < |s| && IsMisplaced(s, i)
    ensures Parse(s) == BAD_DURATION
  {
    hide Step, Run, Parse, NoNumber;
    RefusedIsBad(s, i + 1);
    if After(s, i).Some? {
      FlagsSay(s, i);
      StepRefuses(After(s, i).value, s, i);
    }
  }

  lemma StepRefuses(st: State, s: string, i: nat)
    requires i < |s| && IsMisplaced(s, i)
    requires (st.begin <==> 'P' in s[..i]) && (st.time <==> 'T' in s[..i]) && (st.date <==> 'D' in s[..i])
    requires NoNumber(s, i) ==> st.digits == -1
    ensures Step(st, s, i) == None
  {
    hide Scan, NoNumber;
  }

  /** A unit that was given a number before is refused */
  lemma TwiceIsBad(s: string, i: nat)
    requires i < |s| && After(s, i).Some?
    requires var d := After(s, i).value.d;
             || (s[i] == 'W' && d.weeks != 0) || (s[i] == 'D' && d.days != 0) || (s[i] == 'H' && d.hours != 0)
             || (s[i] == 'M' && d.minutes != 0) || (s[i] == 'S' && d.seconds != 0)
    ensures Parse(s) == BAD_DURATION
  {
    hide Run, Parse, Scan;
    RefusedIsBad(s, i + 1);
  }
}
