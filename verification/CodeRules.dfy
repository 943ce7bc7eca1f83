/**
 The numbering service: a code rule owns a pattern and a reset period, and hands
 out codes by counting up one sequence per period key.  A pattern is a list of
 tokens; rendering is real string building, so uniqueness of the issued codes is
 a theorem about digit strings, paddings and positions.
*/
module CodeRules {
  import opened Common

  // ---------------------------------------------------------------- numbers as strings

  function DigitChar(d: nat): char
    requires d < 10
  {
    '0' + d as char
  }

  /** str(n) */
  function Digits(n: nat): string {
    if n < 10 then [DigitChar(n)] else Digits(n / 10) + [DigitChar(n % 10)]
  }

  /** str.zfill for a string without a sign */
  function ZFill(s: string, width: nat): string
    decreases width - |s|
  {
    if |s| >= width then s else ZFill("0" + s, width)
  }

  /** Reads a digit string back; any leading zeros are harmless. */
  function Value(s: string): int {
    if s == "" then 0 else 10 * Value(s[..|s| - 1]) + (s[|s| - 1] as int - '0' as int)
  }

  lemma {:induction false} ValueOfDigits(n: nat)
    ensures Value(Digits(n)) == n
  {
    if n < 10 {
      assert Digits(n)[..0] == "";
    } else {
      ValueOfDigits(n / 10);
      assert Digits(n)[..|Digits(n)| - 1] == Digits(n / 10);
    }
  }

  lemma {:induction false} ValueOfZero(s: string)
    ensures Value("0" + s) == Value(s)
  {
    if s == "" {
      assert ("0" + s)[..0] == "";
    } else {
      ValueOfZero(s[..|s| - 1]);
      assert ("0" + s)[..|s|] == "0" + s[..|s| - 1];
    }
  }

  lemma {:induction false} ValueOfZFill(s: string, width: nat)
    ensures Value(ZFill(s, width)) == Value(s)
    ensures |ZFill(s, width)| == if |s| >= width then |s| else width
    decreases width - |s|
  {
    if |s| < width {
      ValueOfZero(s);
      ValueOfZFill("0" + s, width);
    }
  }

  /** A padded number determines the number, whatever the width. */
  lemma PaddedIsInjective(m: nat, n: nat, width: nat)
    requires ZFill(Digits(m), width) == ZFill(Digits(n), width)
    ensures m == n
  {
    ValueOfZFill(Digits(m), width);
    ValueOfZFill(Digits(n), width);
    ValueOfDigits(m);
    ValueOfDigits(n);
  }

  lemma {:induction false} DigitsGrow(m: nat, n: nat)
    requires m <= n
    ensures |Digits(m)| <= |Digits(n)|
  {
    if n >= 10 && m >= 10 {
      DigitsGrow(m / 10, n / 10);
    }
  }

  function Power10(k: nat): nat {
    if k == 0 then 1 else 10 * Power10(k - 1)
  }

  lemma {:induction false} DigitsFit(n: nat, width: nat)
    requires width > 0 && n < Power10(width)
    ensures |Digits(n)| <= width
  {
    if n >= 10 {
      assert Power10(width) == 10 * Power10(width - 1);
      assert width > 1;
      DigitsFit(n / 10, width - 1);
    }
  }

  /** A date field of a fixed number of digits. */
  function Field(n: nat, width: nat): string {
    ZFill(Digits(n), width)
  }

  lemma FieldWidth(n: nat, width: nat)
    requires width > 0 && n < Power10(width)
    ensures |Field(n, width)| == width
  {
    DigitsFit(n, width);
    ValueOfZFill(Digits(n), width);
  }

  // ---------------------------------------------------------------- dates, rules and patterns

  /** Years outside 1000..9999 are not padded to four digits by strftime, so they are not dates here. */
  datatype RawDate = Date(year: nat, month: nat, day: nat)

  type Date = d: RawDate | 1000 <= d.year <= 9999 && 1 <= d.month <= 12 && 1 <= d.day <= 31
    witness Date(2026, 1, 1)

  datatype ResetPeriod = Never | Daily | Monthly | Yearly

  datatype DateToken = YYYYMMDD | YYYYMM | YYYY | YY | MM | DD

  /** A slot of width 0 is the plain {SEQ}. */
  datatype Token = Literal(text: string) | Stamp(kind: DateToken) | Slot(width: nat)

  type Pattern = seq<Token>

  datatype Rule = Rule(pattern: Pattern, reset: ResetPeriod, isActive: bool)

  function StampText(kind: DateToken, d: Date): string {
    match kind
    case YYYYMMDD => Field(d.year, 4) + Field(d.month, 2) + Field(d.day, 2)
    case YYYYMM => Field(d.year, 4) + Field(d.month, 2)
    case YYYY => Field(d.year, 4)
    case YY => Field(d.year % 100, 2)
    case MM => Field(d.month, 2)
    case DD => Field(d.day, 2)
  }

  function StampWidth(kind: DateToken): nat {
    match kind
    case YYYYMMDD => 8
    case YYYYMM => 6
    case YYYY => 4
    case YY => 2
    case MM => 2
    case DD => 2
  }

  function TokenText(t: Token, d: Date, n: nat): string {
    match t
    case Literal(text) => text
    case Stamp(kind) => StampText(kind, d)
    case Slot(width) => ZFill(Digits(n), width)
  }

  function Render(p: Pattern, d: Date, n: nat): string {
    if p == [] then "" else TokenText(p[0], d, n) + Render(p[1..], d, n)
  }

  predicate HasSlot(p: Pattern) {
    exists i :: 0 <= i < |p| && p[i].Slot?
  }

  function PeriodKey(reset: ResetPeriod, d: Date): string {
    match reset
    case Daily => StampText(YYYYMMDD, d)
    case Monthly => StampText(YYYYMM, d)
    case Yearly => StampText(YYYY, d)
    case Never => "ALL"
  }

  lemma DateFieldsFit(d: Date)
    ensures d.year < Power10(4) && d.year % 100 < Power10(2) && d.month < Power10(2) && d.day < Power10(2)
  {
    assert Power10(2) == 10 * Power10(1) == 100 * Power10(0);
    assert Power10(4) == 10 * Power10(3) == 100 * Power10(2);
  }

  lemma StampFixedWidth(kind: DateToken, d: Date)
    ensures |StampText(kind, d)| == StampWidth(kind)
  {
    DateFieldsFit(d);
    FieldWidth(d.year, 4);
    FieldWidth(d.year % 100, 2);
    FieldWidth(d.month, 2);
    FieldWidth(d.day, 2);
  }

  predicate ShowsYear(kind: DateToken) {
    kind == YYYYMMDD || kind == YYYYMM || kind == YYYY
  }

  predicate ShowsMonth(kind: DateToken) {
    kind == YYYYMMDD || kind == YYYYMM || kind == MM
  }

  predicate ShowsDay(kind: DateToken) {
    kind == YYYYMMDD || kind == DD
  }

  /** A date token shows exactly these parts of the date (the two-digit year shows its last two digits). */
  lemma StampShows(kind: DateToken, a: Date, b: Date)
    ensures StampText(kind, a) == StampText(kind, b)
       <==> && (ShowsYear(kind) ==> a.year == b.year)
            && (ShowsMonth(kind) ==> a.month == b.month)
            && (ShowsDay(kind) ==> a.day == b.day)
            && (kind == YY ==> a.year % 100 == b.year % 100)
  {
    StampFixedWidth(YYYY, a);
    StampFixedWidth(YYYY, b);
    StampFixedWidth(MM, a);
    StampFixedWidth(MM, b);
    StampFixedWidth(DD, a);
    StampFixedWidth(DD, b);
    if StampText(kind, a) == StampText(kind, b) {
      var s, t := StampText(kind, a), StampText(kind, b);
      if ShowsYear(kind) {
        assert s[..4] == Field(a.year, 4) && t[..4] == Field(b.year, 4);
        PaddedIsInjective(a.year, b.year, 4);
      }
      if ShowsMonth(kind) {
        var at := if kind == MM then 0 else 4;
        assert s[at..at + 2] == Field(a.month, 2) && t[at..at + 2] == Field(b.month, 2);
        PaddedIsInjective(a.month, b.month, 2);
      }
      if ShowsDay(kind) {
        var at := if kind == DD then 0 else 6;
        assert s[at..at + 2] == Field(a.day, 2) && t[at..at + 2] == Field(b.day, 2);
        PaddedIsInjective(a.day, b.day, 2);
      }
      if kind == YY {
        PaddedIsInjective(a.year % 100, b.year % 100, 2);
      }
    }
  }

  // ---------------------------------------------------------------- what is printed

  predicate AllDigits(s: string) {
    forall i :: 0 <= i < |s| ==> '0' <= s[i] <= '9'
  }

  lemma {:induction false} DigitsAreDigits(n: nat)
    ensures AllDigits(Digits(n)) && |Digits(n)| > 0 && n < Power10(|Digits(n)|)
    ensures n >= 10 ==> Power10(|Digits(n)| - 1) <= n
  {
    if n >= 10 {
      DigitsAreDigits(n / 10);
      assert Power10(|Digits(n)| - 1) == 10 * Power10(|Digits(n)| - 2);
      if n < 100 {
        assert |Digits(n / 10)| == 1 && Power10(0) == 1;
      }
    } else {
      assert Power10(1) == 10 * Power10(0) == 10;
    }
  }

  lemma {:induction false} ZFillKeepsDigits(s: string, width: nat)
    requires AllDigits(s)
    ensures AllDigits(ZFill(s, width))
    decreases width - |s|
  {
    if |s| < width {
      ZFillKeepsDigits("0" + s, width);
    }
  }

  lemma {:induction false} ValueConcat(a: string, b: string)
    ensures Value(a + b) == Value(a) * Power10(|b|) + Value(b)
  {
    if b == "" {
      assert a + b == a;
    } else {
      ValueConcat(a, b[..|b| - 1]);
      assert (a + b)[..|a + b| - 1] == a + b[..|b| - 1];
      ShiftValue(Value(a), Power10(|b| - 1));
    }
  }

  lemma ShiftValue(v: int, p: int)
    ensures 10 * (v * p) == v * (10 * p)
  {
  }

  /** Digits that read as a number. */
  predicate Reads(s: string, n: int) {
    AllDigits(s) && Value(s) == n
  }

  lemma PaddedReads(n: nat, width: nat)
    ensures Reads(ZFill(Digits(n), width), n)
  {
    DigitsAreDigits(n);
    ZFillKeepsDigits(Digits(n), width);
    ValueOfZFill(Digits(n), width);
    ValueOfDigits(n);
  }

  /** The number a date token stands for: year, month and day from left to right. */
  function StampNumber(kind: DateToken, d: Date): int {
    match kind
    case YYYYMMDD => 10000 * d.year + 100 * d.month + d.day
    case YYYYMM => 100 * d.year + d.month
    case YYYY => d.year
    case YY => d.year % 100
    case MM => d.month
    case DD => d.day
  }

  /** A two-digit field appended to a number. */
  lemma AppendField(s: string, m: nat, field: string, n: nat)
    requires Reads(s, m) && Reads(field, n) && |field| == 2
    ensures Reads(s + field, 100 * m + n)
  {
    ValueConcat(s, field);
    assert Power10(2) == 10 * Power10(1) == 100 * Power10(0);
  }

  lemma DateFieldsRead(d: Date)
    ensures Reads(Field(d.year, 4), d.year) && Reads(Field(d.year % 100, 2), d.year % 100)
    ensures Reads(Field(d.month, 2), d.month) && |Field(d.month, 2)| == 2
    ensures Reads(Field(d.day, 2), d.day) && |Field(d.day, 2)| == 2
  {
    PaddedReads(d.year, 4);
    PaddedReads(d.year % 100, 2);
    PaddedReads(d.month, 2);
    PaddedReads(d.day, 2);
    DateFieldsFit(d);
    FieldWidth(d.month, 2);
    FieldWidth(d.day, 2);
  }

  /** Read back, a date token is its date: the year, then the month, then the day. */
  lemma StampReads(kind: DateToken, d: Date)
    ensures Reads(StampText(kind, d), StampNumber(kind, d))
    ensures |StampText(kind, d)| == StampWidth(kind)
  {
    StampFixedWidth(kind, d);
    DateFieldsRead(d);
    AppendField(Field(d.year, 4), d.year, Field(d.month, 2), d.month);
    AppendField(Field(d.year, 4) + Field(d.month, 2), 100 * d.year + d.month, Field(d.day, 2), d.day);
  }

  /** Two dates share a sequence exactly when they lie in the same day, month or year, as the rule says. */
  lemma PeriodKeyIff(reset: ResetPeriod, a: Date, b: Date)
    ensures PeriodKey(reset, a) == PeriodKey(reset, b)
       <==> match reset
            case Daily => a == b
            case Monthly => a.year == b.year && a.month == b.month
            case Yearly => a.year == b.year
            case Never => true
  {
    StampShows(YYYYMMDD, a, b);
    StampShows(YYYYMM, a, b);
    StampShows(YYYY, a, b);
  }

  // ---------------------------------------------------------------- rendering is injective

  function TokenWidth(t: Token, n: nat): nat {
    match t
    case Literal(text) => |text|
    case Stamp(kind) => StampWidth(kind)
    case Slot(width) => Max(width, |Digits(n)|)
  }

  function RenderWidth(p: Pattern, n: nat): nat {
    if p == [] then 0 else TokenWidth(p[0], n) + RenderWidth(p[1..], n)
  }

  lemma TokenTextWidth(t: Token, d: Date, n: nat)
    ensures |TokenText(t, d, n)| == TokenWidth(t, n)
  {
    match t
    case Literal(_) =>
    case Stamp(kind) => StampFixedWidth(kind, d);
    case Slot(width) => ValueOfZFill(Digits(n), width);
  }

  lemma {:induction false} RenderedWidth(p: Pattern, d: Date, n: nat)
    ensures |Render(p, d, n)| == RenderWidth(p, n)
  {
    if p != [] {
      TokenTextWidth(p[0], d, n);
      RenderedWidth(p[1..], d, n);
    }
  }

  /** Token i stands where the tokens before it end. */
  lemma {:induction false} TokenStands(p: Pattern, d: Date, n: nat, i: nat)
    requires i < |p|
    ensures
      var start := RenderWidth(p[..i], n);
      && start + TokenWidth(p[i], n) <= |Render(p, d, n)|
      && Render(p, d, n)[start..start + TokenWidth(p[i], n)] == TokenText(p[i], d, n)
  {
    TokenTextWidth(p[0], d, n);
    if i > 0 {
      TokenStands(p[1..], d, n, i - 1);
      assert p[..i][0] == p[0] && p[..i][1..] == p[1..][..i - 1] && p[1..][i - 1] == p[i];
    } else {
      assert p[..0] == [];
    }
  }

  /** What the i-th part of a code must be. */
  predicate PartIs(part: string, t: Token, d: Date, n: nat) {
    match t
    case Literal(text) => part == text
    case Stamp(kind) => Reads(part, StampNumber(kind, d)) && |part| == StampWidth(kind)
    case Slot(width) => Reads(part, n) && |part| >= width && (|part| > width ==> part[..1] != "0" || n == 0)
  }

  /** A code shows its pattern: the parts in order, dates and numbers readable, nothing between or after. */
  ghost predicate ShowsPattern(code: string, p: Pattern, d: Date, n: nat) {
    && |code| == RenderWidth(p, n)
    && forall i :: 0 <= i < |p| ==>
         var start := RenderWidth(p[..i], n);
         start + TokenWidth(p[i], n) <= |code| && PartIs(code[start..start + TokenWidth(p[i], n)], p[i], d, n)
  }

  lemma {:induction false} NoLeadingZero(n: nat)
    ensures n > 0 ==> Digits(n)[..1] != "0"
  {
    if n >= 10 {
      NoLeadingZero(n / 10);
      DigitsAreDigits(n / 10);
      assert Digits(n)[..1] == Digits(n / 10)[..1];
    } else {
      assert Digits(n)[..1] == [DigitChar(n)];
      assert "0"[0] == '0';
    }
  }

  lemma TokenIsPart(t: Token, d: Date, n: nat)
    ensures PartIs(TokenText(t, d, n), t, d, n)
  {
    match t
    case Literal(_) =>
    case Stamp(kind) => StampReads(kind, d);
    case Slot(width) =>
      PaddedReads(n, width);
      ValueOfZFill(Digits(n), width);
      NoLeadingZero(n);
  }

  lemma RenderShowsPattern(p: Pattern, d: Date, n: nat)
    ensures ShowsPattern(Render(p, d, n), p, d, n)
  {
    RenderedWidth(p, d, n);
    forall i | 0 <= i < |p|
      ensures
        var start := RenderWidth(p[..i], n);
        && start + TokenWidth(p[i], n) <= |Render(p, d, n)|
        && PartIs(Render(p, d, n)[start..start + TokenWidth(p[i], n)], p[i], d, n)
    {
      TokenStands(p, d, n, i);
      TokenIsPart(p[i], d, n);
    }
  }

  /** On 21 September 2026 the first code of {YYYYMMDD}{SEQ:4} is 202609210001. */
  lemma ExampleCode()
    ensures Render([Stamp(YYYYMMDD), Slot(4)], Date(2026, 9, 21), 1) == "202609210001"
  {
    assert Digits(2026) == Digits(202) + "6" && Digits(202) == Digits(20) + "2" && Digits(20) == "2" + "0";
    assert Digits(2026) == "2026";
    assert Digits(21) == "21" && Digits(9) == "9" && Digits(1) == "1";
    assert Field(2026, 4) == "2026" && Field(9, 2) == ZFill("09", 2) == "09" && Field(21, 2) == "21";
    assert "0" + "1" == "01" && "0" + "01" == "001" && "0" + "001" == "0001" && "0" + "9" == "09";
    assert ZFill("0001", 4) == "0001" && ZFill("001", 4) == "0001";
    assert ZFill("01", 4) == "0001" && ZFill("1", 4) == "0001";
    var p := [Stamp(YYYYMMDD), Slot(4)];
    assert p[1..] == [Slot(4)] && p[1..][1..] == [];
    assert Render([Slot(4)], Date(2026, 9, 21), 1) == "0001" + "";
    assert StampText(YYYYMMDD, Date(2026, 9, 21)) == "20260921";
  }

  /** Slots never shrink as the sequence grows, so equal totals force equal parts: the positions line up. */
  lemma {:induction false} WidthsAlign(p: Pattern, m: nat, n: nat)
    requires m <= n
    ensures RenderWidth(p, m) <= RenderWidth(p, n)
    ensures RenderWidth(p, m) == RenderWidth(p, n) ==>
              forall i :: 0 <= i < |p| ==> TokenWidth(p[i], m) == TokenWidth(p[i], n)
  {
    if p != [] {
      DigitsGrow(m, n);
      WidthsAlign(p[1..], m, n);
      if RenderWidth(p, m) == RenderWidth(p, n) {
        forall i | 0 <= i < |p|
          ensures TokenWidth(p[i], m) == TokenWidth(p[i], n)
        {
          if i > 0 {
            assert p[1..][i - 1] == p[i];
          }
        }
      }
    }
  }

  ghost predicate SameTexts(p: Pattern, a: Date, m: nat, b: Date, n: nat) {
    forall i :: 0 <= i < |p| ==> TokenText(p[i], a, m) == TokenText(p[i], b, n)
  }

  lemma {:induction false} AlignedRenderSplits(p: Pattern, a: Date, m: nat, b: Date, n: nat)
    requires forall i :: 0 <= i < |p| ==> TokenWidth(p[i], m) == TokenWidth(p[i], n)
    requires Render(p, a, m) == Render(p, b, n)
    ensures SameTexts(p, a, m, b, n)
  {
    if p != [] {
      var w := TokenWidth(p[0], m);
      TokenTextWidth(p[0], a, m);
      TokenTextWidth(p[0], b, n);
      assert TokenText(p[0], a, m) == Render(p, a, m)[..w] == Render(p, b, n)[..w] == TokenText(p[0], b, n);
      assert Render(p[1..], a, m) == Render(p, a, m)[w..] == Render(p, b, n)[w..] == Render(p[1..], b, n);
      AlignedRenderSplits(p[1..], a, m, b, n);
      forall i | 0 <= i < |p|
        ensures TokenText(p[i], a, m) == TokenText(p[i], b, n)
      {
        if i > 0 {
          assert p[1..][i - 1] == p[i];
        }
      }
    }
  }

  lemma {:induction false} SameTextsRenderSame(p: Pattern, a: Date, m: nat, b: Date, n: nat)
    requires SameTexts(p, a, m, b, n)
    ensures Render(p, a, m) == Render(p, b, n)
  {
    if p != [] {
      forall i | 0 <= i < |p[1..]|
        ensures TokenText(p[1..][i], a, m) == TokenText(p[1..][i], b, n)
      {
        assert p[1..][i] == p[i + 1];
      }
      SameTextsRenderSame(p[1..], a, m, b, n);
    }
  }

  /** Two codes of one pattern coincide exactly when every token prints the same. */
  lemma RenderIsInjective(p: Pattern, a: Date, m: nat, b: Date, n: nat)
    ensures Render(p, a, m) == Render(p, b, n) <==> SameTexts(p, a, m, b, n)
  {
    if Render(p, a, m) == Render(p, b, n) {
      RenderedWidth(p, a, m);
      RenderedWidth(p, b, n);
      if m <= n {
        WidthsAlign(p, m, n);
      } else {
        WidthsAlign(p, n, m);
      }
      AlignedRenderSplits(p, a, m, b, n);
    } else if SameTexts(p, a, m, b, n) {
      SameTextsRenderSame(p, a, m, b, n);
    }
  }

  lemma SlotFixesSequence(p: Pattern, a: Date, m: nat, b: Date, n: nat)
    requires HasSlot(p) && SameTexts(p, a, m, b, n)
    ensures m == n
  {
    var i :| 0 <= i < |p| && p[i].Slot?;
    PaddedIsInjective(m, n, p[i].width);
  }

  // ---------------------------------------------------------------- issuing codes

  datatype Error = RuleNotFound | SlotRequired

  /** The rules and their sequences; a sequence that was never used counts as 0. */
  datatype Store = Store(rules: map<string, Rule>, sequences: map<(string, string), nat>) {
    function Last(rule: string, key: string): nat {
      if (rule, key) in sequences then sequences[(rule, key)] else 0
    }
  }

  datatype Request = Request(rule: string, on: Date)

  function Issue(st: Store, q: Request): (Store, Result<string, Error>) {
    if q.rule !in st.rules || !st.rules[q.rule].isActive then (st, Err(RuleNotFound))
    else
      var rule := st.rules[q.rule];
      var key := PeriodKey(rule.reset, q.on);
      var next := st.Last(q.rule, key) + 1;
      if !HasSlot(rule.pattern) then (st, Err(SlotRequired))
      else (st.(sequences := st.sequences[(q.rule, key) := next]), Ok(Render(rule.pattern, q.on, next)))
  }

  function After(st: Store, qs: seq<Request>): Store {
    if qs == [] then st else Issue(After(st, qs[..|qs| - 1]), qs[|qs| - 1]).0
  }

  /** The answer to the i-th request of a run. */
  function Answer(st: Store, qs: seq<Request>, i: nat): Result<string, Error>
    requires i < |qs|
  {
    Issue(After(st, qs[..i]), qs[i]).1
  }

  /** No run of any length, with dates in any order, issues one code of the rule twice. */
  ghost predicate UniqueForever(st: Store, rule: string) {
    forall qs: seq<Request>, i: nat, j: nat ::
      (i < j < |qs| && qs[i].rule == qs[j].rule == rule && Answer(st, qs, i).Ok? && Answer(st, qs, j).Ok?)
      ==> Answer(st, qs, i) != Answer(st, qs, j)
  }

  predicate Shows(p: Pattern, part: DateToken -> bool) {
    exists i :: 0 <= i < |p| && p[i].Stamp? && part(p[i].kind)
  }

  /** The pattern prints everything the reset period depends on. */
  predicate PeriodVisible(rule: Rule) {
    && (rule.reset != Never ==> Shows(rule.pattern, ShowsYear))
    && (rule.reset == Daily || rule.reset == Monthly ==> Shows(rule.pattern, ShowsMonth))
    && (rule.reset == Daily ==> Shows(rule.pattern, ShowsDay))
  }

  lemma {:induction false} SequencesGrow(st: Store, qs: seq<Request>, i: nat, j: nat, rule: string, key: string)
    requires i <= j <= |qs|
    ensures After(st, qs[..i]).Last(rule, key) <= After(st, qs[..j]).Last(rule, key)
    ensures After(st, qs[..j]).rules == After(st, qs[..i]).rules == st.rules
    decreases j
  {
    if i < j {
      SequencesGrow(st, qs, i, j - 1, rule, key);
      assert qs[..j][..j - 1] == qs[..j - 1];
    } else if j > 0 {
      SequencesGrow(st, qs, j - 1, j - 1, rule, key);
      assert qs[..j][..j - 1] == qs[..j - 1];
    }
  }

  /** The reset period of a date is fixed by what a pattern with a visible period prints. */
  lemma VisiblePeriodFixesKey(rule: Rule, a: Date, m: nat, b: Date, n: nat)
    requires PeriodVisible(rule) && SameTexts(rule.pattern, a, m, b, n)
    ensures PeriodKey(rule.reset, a) == PeriodKey(rule.reset, b)
  {
    forall i | 0 <= i < |rule.pattern| && rule.pattern[i].Stamp?
      ensures StampText(rule.pattern[i].kind, a) == StampText(rule.pattern[i].kind, b)
    {
      assert TokenText(rule.pattern[i], a, m) == TokenText(rule.pattern[i], b, n);
    }
    forall kind: DateToken {
      StampShows(kind, a, b);
    }
  }

  /** Codes of one rule never repeat, whatever was issued before and between. */
  lemma IssuedCodesDiffer(st: Store, rule: string, qs: seq<Request>, i: nat, j: nat)
    requires rule in st.rules && PeriodVisible(st.rules[rule])
    requires i < j < |qs| && qs[i].rule == qs[j].rule == rule
    requires Answer(st, qs, i).Ok? && Answer(st, qs, j).Ok?
    ensures Answer(st, qs, i) != Answer(st, qs, j)
  {
    var r := st.rules[rule];
    var key := PeriodKey(r.reset, qs[i].on);
    SequencesGrow(st, qs, i, i, rule, key);
    SequencesGrow(st, qs, i + 1, j, rule, key);
    var before, later := After(st, qs[..i]), After(st, qs[..j]);
    assert qs[..i + 1][..i] == qs[..i];
    var m := before.Last(rule, key) + 1;
    assert After(st, qs[..i + 1]).Last(rule, key) == m;
    var n := later.Last(rule, PeriodKey(r.reset, qs[j].on)) + 1;
    if Answer(st, qs, i) == Answer(st, qs, j) {
      RenderIsInjective(r.pattern, qs[i].on, m, qs[j].on, n);
      SlotFixesSequence(r.pattern, qs[i].on, m, qs[j].on, n);
      VisiblePeriodFixesKey(r, qs[i].on, m, qs[j].on, n);
      assert false;
    }
  }

  /** Two dates of different periods that a pattern without a visible period prints alike. */
  function CollidingDates(rule: Rule): (Date, Date) {
    if !Shows(rule.pattern, ShowsYear) then (Date(2000, 1, 1), Date(2100, 1, 1))
    else if rule.reset != Yearly && !Shows(rule.pattern, ShowsMonth) then (Date(2000, 1, 1), Date(2000, 2, 1))
    else (Date(2000, 1, 1), Date(2000, 1, 2))
  }

  lemma CollidingStampsPrintAlike(rule: Rule, i: nat)
    requires !PeriodVisible(rule) && i < |rule.pattern| && rule.pattern[i].Stamp?
    ensures var (a, b) := CollidingDates(rule); StampText(rule.pattern[i].kind, a) == StampText(rule.pattern[i].kind, b)
  {
    var (a, b) := CollidingDates(rule);
    StampShows(rule.pattern[i].kind, a, b);
  }

  lemma CollidingDatesPrintAlike(rule: Rule, n: nat)
    requires !PeriodVisible(rule)
    ensures
      var (a, b) := CollidingDates(rule);
      && PeriodKey(rule.reset, a) != PeriodKey(rule.reset, b)
      && SameTexts(rule.pattern, a, n, b, n)
  {
    var (a, b) := CollidingDates(rule);
    StampShows(YYYYMMDD, a, b);
    StampShows(YYYYMM, a, b);
    StampShows(YYYY, a, b);
    forall i | 0 <= i < |rule.pattern|
      ensures TokenText(rule.pattern[i], a, n) == TokenText(rule.pattern[i], b, n)
    {
      if rule.pattern[i].Stamp? {
        CollidingStampsPrintAlike(rule, i);
      }
    }
  }

  /** The rule exists, is active and has a slot, so that requests are answered. */
  predicate IsServed(st: Store, rule: string) {
    rule in st.rules && st.rules[rule].isActive && HasSlot(st.rules[rule].pattern)
  }

  function Repeats(q: Request, n: nat): seq<Request> {
    if n == 0 then [] else Repeats(q, n - 1) + [q]
  }

  /** Repeated requests move one sequence on and touch no other. */
  lemma {:induction false} AfterRepeats(st: Store, rule: string, on: Date, n: nat, other: string)
    requires IsServed(st, rule) && other != PeriodKey(st.rules[rule].reset, on)
    ensures
      var key, later := PeriodKey(st.rules[rule].reset, on), After(st, Repeats(Request(rule, on), n));
      && |Repeats(Request(rule, on), n)| == n && later.rules == st.rules
      && later.Last(rule, key) == st.Last(rule, key) + n && later.Last(rule, other) == st.Last(rule, other)
  {
    if n > 0 {
      AfterRepeats(st, rule, on, n - 1, other);
      var qs := Repeats(Request(rule, on), n);
      assert qs[..|qs| - 1] == Repeats(Request(rule, on), n - 1);
    }
  }

  lemma AnswerOf(st: Store, before: seq<Request>, q: Request, rest: seq<Request>)
    ensures
      var qs := before + [q] + rest;
      && Answer(st, qs, |before|) == Issue(After(st, before), q).1
      && After(st, qs[..|before| + 1]) == Issue(After(st, before), q).0
  {
    var qs := before + [q] + rest;
    assert qs[..|before|] == before;
    assert qs[..|before| + 1] == before + [q];
    assert (before + [q])[..|before|] == before;
  }

  /** With the sequences of two periods level, their next codes have the same number. */
  lemma LevelSequencesAnswer(st: Store, before: seq<Request>, rule: string, a: Date, b: Date, n: nat)
    requires IsServed(st, rule) && After(st, before).rules == st.rules
    requires PeriodKey(st.rules[rule].reset, a) != PeriodKey(st.rules[rule].reset, b)
    requires After(st, before).Last(rule, PeriodKey(st.rules[rule].reset, a)) == n
    requires After(st, before).Last(rule, PeriodKey(st.rules[rule].reset, b)) == n
    ensures
      var qs := before + [Request(rule, a)] + [Request(rule, b)];
      && Answer(st, qs, |before|) == Ok(Render(st.rules[rule].pattern, a, n + 1))
      && Answer(st, qs, |before| + 1) == Ok(Render(st.rules[rule].pattern, b, n + 1))
  {
    var qa, qb := Request(rule, a), Request(rule, b);
    AnswerOf(st, before, qa, [qb]);
    AnswerOf(st, before, qa, []);
    assert before + [qa] + [] == before + [qa] && (before + [qa])[..|before| + 1] == before + [qa];
    AnswerOf(st, before + [qa], qb, []);
    assert before + [qa] + [qb] + [] == before + [qa] + [qb];
  }

  lemma NotUnique(st: Store, rule: string, qs: seq<Request>, i: nat)
    requires i + 1 < |qs| && qs[i].rule == qs[i + 1].rule == rule
    requires Answer(st, qs, i).Ok? && Answer(st, qs, i) == Answer(st, qs, i + 1)
    ensures !UniqueForever(st, rule)
  {
    assert !(Answer(st, qs, i) != Answer(st, qs, i + 1));
  }

  /** The period behind catches up, then both issue the same code. */
  lemma CatchUpCollides(st: Store, rule: string, behind: Date, ahead: Date, n: nat)
    requires IsServed(st, rule)
    requires PeriodKey(st.rules[rule].reset, behind) != PeriodKey(st.rules[rule].reset, ahead)
    requires Render(st.rules[rule].pattern, behind, n + 1) == Render(st.rules[rule].pattern, ahead, n + 1)
    requires st.Last(rule, PeriodKey(st.rules[rule].reset, behind)) <= n
    requires st.Last(rule, PeriodKey(st.rules[rule].reset, ahead)) == n
    ensures !UniqueForever(st, rule)
  {
    var r := st.rules[rule];
    var gap := n - st.Last(rule, PeriodKey(r.reset, behind));
    var before := Repeats(Request(rule, behind), gap);
    AfterRepeats(st, rule, behind, gap, PeriodKey(r.reset, ahead));
    LevelSequencesAnswer(st, before, rule, behind, ahead, n);
    NotUnique(st, rule, before + [Request(rule, behind)] + [Request(rule, ahead)], gap);
  }

  /** However far its sequences have come, a rule that hides its period issues some code twice. */
  lemma InvisiblePeriodCollides(st: Store, rule: string)
    requires IsServed(st, rule) && !PeriodVisible(st.rules[rule])
    ensures !UniqueForever(st, rule)
  {
    var r := st.rules[rule];
    var (a, b) := CollidingDates(r);
    var m, n := st.Last(rule, PeriodKey(r.reset, a)), st.Last(rule, PeriodKey(r.reset, b));
    var top := if m <= n then n else m;
    CollidingDatesPrintAlike(r, top + 1);
    SameTextsRenderSame(r.pattern, a, top + 1, b, top + 1);
    if m <= n {
      CatchUpCollides(st, rule, a, b, n);
    } else {
      CatchUpCollides(st, rule, b, a, m);
    }
  }

  /**
   In any state: the codes of a rule are unique for ever exactly when its
   period is visible, or no request is answered.
  */
  lemma UniqueForeverIff(st: Store, rule: string)
    ensures UniqueForever(st, rule) <==> (IsServed(st, rule) ==> PeriodVisible(st.rules[rule]))
  {
    if !IsServed(st, rule) {
      forall qs: seq<Request>, i: nat | i < |qs| && qs[i].rule == rule
        ensures Answer(st, qs, i).Err?
      {
        SequencesGrow(st, qs, i, i, rule, "");
      }
    } else if PeriodVisible(st.rules[rule]) {
      forall qs: seq<Request>, i: nat, j: nat |
        i < j < |qs| && qs[i].rule == qs[j].rule == rule && Answer(st, qs, i).Ok? && Answer(st, qs, j).Ok?
        ensures Answer(st, qs, i) != Answer(st, qs, j)
      {
        IssuedCodesDiffer(st, rule, qs, i, j);
      }
    } else {
      InvisiblePeriodCollides(st, rule);
    }
  }

  // ---------------------------------------------------------------- the service

  /** generate_code against its two tables; one call is one transaction. */
  class Numbering {
    var rules: map<string, Rule>
    var sequences: map<(string, string), nat>

    constructor (rules: map<string, Rule>)
      ensures this.rules == rules && sequences == map[]
    {
      this.rules, sequences := rules, map[];
    }

    method GenerateCode(ruleCode: string, on: Date) returns (r: Result<string, Error>)
      modifies this`sequences
      ensures (Store(rules, sequences), r) == Issue(Store(rules, old(sequences)), Request(ruleCode, on))
      ensures r == Err(RuleNotFound) <==> ruleCode !in rules || !rules[ruleCode].isActive
      ensures r == Err(SlotRequired) <==>
                ruleCode in rules && rules[ruleCode].isActive && !HasSlot(rules[ruleCode].pattern)
      ensures r.Err? ==> sequences == old(sequences)
      ensures r.Ok? ==>
                var at := (ruleCode, PeriodKey(rules[ruleCode].reset, on));
                var n := (if at in old(sequences) then old(sequences)[at] else 0) + 1;
                sequences == old(sequences)[at := n] && ShowsPattern(r.value, rules[ruleCode].pattern, on, n)
    {
      if ruleCode !in rules || !rules[ruleCode].isActive {
        return Err(RuleNotFound);
      }
      var rule := rules[ruleCode];
      var key := PeriodKey(rule.reset, on);
      var lastValue := if (ruleCode, key) in sequences then sequences[(ruleCode, key)] else 0;
      if !HasSlot(rule.pattern) {
        return Err(SlotRequired);
      }
      sequences := sequences[(ruleCode, key) := lastValue + 1];
      RenderShowsPattern(rule.pattern, on, lastValue + 1);
      r := Ok(Render(rule.pattern, on, lastValue + 1));
    }
  }
}
