/** The serial year-range resolver `startEndYears` and the per-record
    selection of the catalog query handler (src/query.js). */
module Query {
  import opened Strings
  import opened FieldIndex
  import opened Helpers

  // ---------------------------------------------------------------------------
  // Reading years out of holdings text

  /** A year as four decimal digits read it. */
  type Year = y: int | 0 <= y <= 9999

  /** `[\d]{4}` at position `i`. */
  predicate FourDigitsAt(s: string, i: nat) {
    i + 4 <= |s| && IsDigit(s[i]) && IsDigit(s[i + 1]) && IsDigit(s[i + 2]) && IsDigit(s[i + 3])
  }

  /** `parseInt` of the four digits at `i`. */
  function YearAt(s: string, i: nat): Year
    requires FourDigitsAt(s, i)
  {
    1000 * DigitValue(s[i]) + 100 * DigitValue(s[i + 1]) + 10 * DigitValue(s[i + 2]) + DigitValue(s[i + 3])
  }

  /** The characters JavaScript's `.` does not match. */
  predicate IsLineTerminator(c: char) {
    c == '\n' || c == '\r' || c == '\U{2028}' || c == '\U{2029}'
  }

  /** Where the lazy `.*?\)` starting at `i` stops: at the first ')', unless a
      line terminator comes first. */
  function CloseFrom(s: string, i: nat): (r: Option<nat>)
    ensures r.Some? ==> i <= r.value < |s| && s[r.value] == ')'
    ensures r.Some? ==> forall k :: i <= k < r.value ==> s[k] != ')' && !IsLineTerminator(s[k])
    decreases |s| - i
  {
    if i >= |s| then None
    else if s[i] == ')' then Some(i)
    else if IsLineTerminator(s[i]) then None
    else CloseFrom(s, i + 1)
  }

  /** `/\(([\d]{4}).*?\)/` tried at position `p`: the end of the match. */
  function ParenMatchAt(s: string, p: nat): (r: Option<nat>)
    ensures r.Some? <==> p < |s| && s[p] == '(' && FourDigitsAt(s, p + 1) && CloseFrom(s, p + 5).Some?
    ensures r.Some? ==> p + 6 <= r.value <= |s| && s[r.value - 1] == ')' && CloseFrom(s, p + 5) == Some(r.value - 1)
  {
    if p < |s| && s[p] == '(' && FourDigitsAt(s, p + 1) then
      match CloseFrom(s, p + 5)
      case Some(c) => Some(c + 1)
      case None => None
    else None
  }

  /** The years of `value.match(/\(([\d]{4}).*?\)/g)` from position `from`:
      each match yields the four digits after its '(', and the search resumes
      after the match. */
  function ParenYears(s: string, from: nat): (ys: seq<Year>)
    ensures from <= |s| ==> 6 * |ys| <= |s| - from
    decreases |s| - from
  {
    if from >= |s| then []
    else match ParenMatchAt(s, from)
      case Some(e) => [YearAt(s, from + 1)] + ParenYears(s, e)
      case None => ParenYears(s, from + 1)
  }

  /** The class `[\\A/-]`: backslash, the letter A, slash and dash. */
  predicate IsYearLead(c: char) {
    c == '\\' || c == 'A' || c == '/' || c == '-'
  }

  /** A lead character at `k` with four digits after it. */
  predicate LeadYearAt(s: string, k: nat) {
    k < |s| && IsYearLead(s[k]) && FourDigitsAt(s, k + 1)
  }

  /** Where `s.match(/[\\A/-]([\d]{4})/)` matches, searching from `p`: the
      leftmost lead character followed by four digits. */
  function LeadMatch(s: string, p: nat): (r: Option<nat>)
    ensures r.Some? ==> p <= r.value && LeadYearAt(s, r.value)
    ensures r.Some? ==> forall k :: p <= k < r.value ==> !LeadYearAt(s, k)
    ensures r.None? ==> forall k :: p <= k ==> !LeadYearAt(s, k)
    decreases |s| - p
  {
    if p + 5 > |s| then None
    else if LeadYearAt(s, p) then Some(p)
    else LeadMatch(s, p + 1)
  }

  /** Group 1 of that match, read as a number; `None` where `match` returns null:
      the four digits after the leftmost lead character that has four digits
      after it. */
  function LeadYear(s: string): (r: Option<Year>)
    ensures r.None? <==> forall k: nat :: !LeadYearAt(s, k)
    ensures r.Some? ==>
      exists k: nat :: LeadYearAt(s, k) && r.value == YearAt(s, k + 1) && forall j: nat :: j < k ==> !LeadYearAt(s, j)
  {
    match LeadMatch(s, 0)
    case Some(k) => Some(YearAt(s, k + 1))
    case None => None
  }

  /** The years one 866 $a value contributes; `None` where the source throws
      (no parenthesis and no lead-preceded year before the first '='). */
  function HoldingYears(value: string): (r: Option<seq<Year>>)
    ensures r.None? ==> '(' !in value && forall k: nat :: !LeadYearAt(BeforeFirst(value, '='), k)
    ensures '(' !in value && (forall k: nat :: !LeadYearAt(BeforeFirst(value, '='), k)) ==> r.None?
    ensures '(' in value ==> r.Some? && forall y :: y in r.value ==> exists p: nat :: YearOpensAt(value, p, y)
    ensures '(' !in value && r.Some? ==> |r.value| == 1
  {
    if '(' in value then
      ParenYearsSound(value, 0);
      Some(ParenYears(value, 0))
    else match LeadYear(BeforeFirst(value, '='))
      case Some(y) =>
        assert !forall k: nat :: !LeadYearAt(BeforeFirst(value, '='), k);
        Some([y])
      case None => None
  }

  /** An opening parenthesis at `p` followed by four digits that read `y`. */
  predicate YearOpensAt(s: string, p: nat, y: Year) {
    p < |s| && s[p] == '(' && FourDigitsAt(s, p + 1) && YearAt(s, p + 1) == y
  }

  /** Every year the parenthesised scan reports is read right after an opening
      parenthesis at or after the start of the scan. */
  lemma {:induction false} ParenYearsSound(s: string, from: nat)
    ensures forall y :: y in ParenYears(s, from) ==> exists p :: from <= p && YearOpensAt(s, p, y)
    decreases |s| - from
  {
    if from < |s| {
      match ParenMatchAt(s, from)
      case Some(e) =>
        ParenYearsSound(s, e);
        assert YearOpensAt(s, from, YearAt(s, from + 1));
      case None =>
        ParenYearsSound(s, from + 1);
    }
  }

  /** The lazy `.*?\)` only looks ahead, so text before the scan start is irrelevant. */
  lemma {:induction false} CloseFromShift(x: string, y: string, k: nat)
    ensures CloseFrom(x + y, |x| + k) == match CloseFrom(y, k)
      case Some(c) => Some(|x| + c)
      case None => None
    decreases |y| - k
  {
    if k < |y| {
      assert (x + y)[|x| + k] == y[k];
      CloseFromShift(x, y, k + 1);
    }
  }

  /** The same holds for one attempt of the parenthesised pattern. */
  lemma ParenMatchAtShift(x: string, y: string, k: nat)
    ensures ParenMatchAt(x + y, |x| + k) == match ParenMatchAt(y, k)
      case Some(e) => Some(|x| + e)
      case None => None
    ensures FourDigitsAt(y, k + 1) ==> FourDigitsAt(x + y, |x| + k + 1) && YearAt(x + y, |x| + k + 1) == YearAt(y, k + 1)
  {
    var s := x + y;
    if k + 5 <= |y| {
      assert s[|x| + k] == y[k] && s[|x| + k + 1] == y[k + 1] && s[|x| + k + 2] == y[k + 2];
      assert s[|x| + k + 3] == y[k + 3] && s[|x| + k + 4] == y[k + 4];
    }
    CloseFromShift(x, y, k + 5);
  }

  /** ... and for the whole global scan: the years found in the tail of a text
      are those found in the tail on its own. */
  lemma {:induction false} ParenYearsShift(x: string, y: string, k: nat)
    ensures ParenYears(x + y, |x| + k) == ParenYears(y, k)
    decreases |y| - k
  {
    if k < |y| {
      ParenMatchAtShift(x, y, k);
      match ParenMatchAt(y, k)
      case Some(e) =>
        ParenYearsShift(x, y, e);
      case None =>
        ParenYearsShift(x, y, k + 1);
    }
  }

  /** Text without an opening parenthesis yields nothing to the scan. */
  lemma {:induction false} ParenYearsSkip(s: string, p: nat, q: nat)
    requires p <= q <= |s|
    requires forall k :: p <= k < q ==> s[k] != '('
    ensures ParenYears(s, p) == ParenYears(s, q)
    decreases q - p
  {
    if p < q {
      ParenYearsSkip(s, p + 1, q);
    }
  }

  /** The lazy `.*?\)` stops at the first ')' when no line terminator precedes it. */
  lemma {:induction false} CloseFromIs(s: string, i: nat, c: nat)
    requires i <= c < |s| && s[c] == ')'
    requires forall k :: i <= k < c ==> s[k] != ')' && !IsLineTerminator(s[k])
    ensures CloseFrom(s, i) == Some(c)
    decreases c - i
  {
    if i < c {
      CloseFromIs(s, i + 1, c);
    }
  }

  /** Text on one line without ')' in between. */
  predicate PlainRun(t: string) {
    forall k :: 0 <= k < |t| ==> t[k] != ')' && !IsLineTerminator(t[k])
  }

  /** A parenthesised group at the start: the scan reports the four digits
      that open it, then goes on after the first ')' that closes it. */
  lemma ParenGroupFirst(digits: string, inner: string, rest: string)
    requires |digits| == 4 && AllDigits(digits)
    requires PlainRun(inner)
    ensures ParenYears(['('] + digits + inner + [')'] + rest, 0) == [DigitsValue(digits)] + ParenYears(rest, 0)
  {
    var group := ['('] + digits + inner + [')'];
    var t := group + rest;
    var c := 5 + |inner|;
    assert t[0] == '(' && t[c] == ')';
    forall k | 5 <= k < c
      ensures t[k] != ')' && !IsLineTerminator(t[k])
    {
      assert t[k] == inner[k - 5];
    }
    CloseFromIs(t, 5, c);
    assert t[1] == digits[0] && t[2] == digits[1] && t[3] == digits[2] && t[4] == digits[3];
    FourDigitsValue(digits);
    assert ParenMatchAt(t, 0) == Some(c + 1);
    assert ParenYears(t, 0) == [DigitsValue(digits)] + ParenYears(t, c + 1);
    ParenYearsShift(group, rest, 0);
    assert |group| == c + 1;
  }

  /** One parenthesised group after text without an opening parenthesis. */
  lemma ParenGroup(lead: string, digits: string, inner: string, rest: string)
    requires '(' !in lead
    requires |digits| == 4 && AllDigits(digits)
    requires PlainRun(inner)
    ensures ParenYears(lead + ['('] + digits + inner + [')'] + rest, 0) == [DigitsValue(digits)] + ParenYears(rest, 0)
  {
    var t := ['('] + digits + inner + [')'] + rest;
    var s := lead + t;
    assert s == lead + ['('] + digits + inner + [')'] + rest;
    forall k | 0 <= k < |lead| ensures s[k] != '(' {
      assert s[k] == lead[k];
    }
    ParenYearsSkip(s, 0, |lead|);
    ParenYearsShift(lead, t, 0);
    ParenGroupFirst(digits, inner, rest);
  }

  /** Four digits read as a number, digit by digit. */
  lemma FourDigitsValue(d: string)
    requires |d| == 4 && AllDigits(d)
    ensures FourDigitsAt(d, 0)
    ensures DigitsValue(d) == YearAt(d, 0)
  {
    assert DigitsValue(d[..1]) == DigitValue(d[0]) by { assert d[..1][..0] == []; }
    assert DigitsValue(d[..2]) == DigitsValue(d[..1]) * 10 + DigitValue(d[1]) by { assert d[..2][..1] == d[..1]; }
    assert DigitsValue(d[..3]) == DigitsValue(d[..2]) * 10 + DigitValue(d[2]) by { assert d[..3][..2] == d[..2]; }
    assert DigitsValue(d) == DigitsValue(d[..3]) * 10 + DigitValue(d[3]) by { assert d[..4][..3] == d[..3]; }
  }

  lemma VolumesExampleFirst(value: string, rest: string)
    requires value == "v.16(1994/1995)" + rest
    ensures ParenYears(value, 0) == [1994] + ParenYears(rest, 0)
  {
    var lead, digits, inner := "v.16", "1994", "/1995";
    assert value == lead + ['('] + digits + inner + [')'] + rest;
    assert '(' !in lead && AllDigits(digits) && PlainRun(inner);
    ParenGroup(lead, digits, inner, rest);
    FourDigitsValue(digits);
  }

  lemma VolumesExampleSecond(rest: string)
    requires rest == "-v.19(2001/2002)"
    ensures ParenYears(rest, 0) == [2001]
  {
    assert rest == "-v.19" + ['('] + "2001" + "/2002" + [')'] + "";
    ParenGroup("-v.19", "2001", "/2002", "");
    FourDigitsValue("2001");
  }

  /** Volume designations with parenthesised years: every parenthesised year counts. */
  lemma HoldingVolumesExample(value: string)
    requires value == "v.16(1994/1995)-v.19(2001/2002)"
    ensures HoldingYears(value) == Some([1994, 2001])
  {
    var rest := value[15..];
    assert value == "v.16(1994/1995)" + rest;
    assert rest == "-v.19(2001/2002)";
    VolumesExampleFirst(value, rest);
    VolumesExampleSecond(rest);
    assert [1994] + [2001] == [1994, 2001];
    assert value[4] == '(';
  }

  /** The lead-year search stops at the first lead character followed by four digits. */
  lemma LeadMatchIs(s: string, k: nat)
    requires LeadYearAt(s, k)
    requires forall j :: 0 <= j < k ==> !LeadYearAt(s, j)
    ensures LeadYear(s) == Some(YearAt(s, k + 1))
  {
  }

  /** After text without any lead character, the first lead-and-four-digits
      match is the one read. */
  lemma LeadAfter(x: string, y: string)
    requires forall k :: 0 <= k < |x| ==> !IsYearLead(x[k])
    requires LeadYearAt(y, 0)
    ensures LeadYear(x + y) == Some(YearAt(y, 1))
  {
    var s := x + y;
    assert s[|x|] == y[0] && s[|x| + 1] == y[1] && s[|x| + 2] == y[2] && s[|x| + 3] == y[3] && s[|x| + 4] == y[4];
    forall j | 0 <= j < |x| ensures !LeadYearAt(s, j) {
      assert s[j] == x[j];
    }
    LeadMatchIs(s, |x|);
  }

  /** A bare span: the leading year has no lead character before it, so only
      the year after the dash is read. */
  lemma HoldingSpanExample(value: string)
    requires value == "1995-2004"
    ensures HoldingYears(value) == Some([2004])
  {
    assert '(' !in value && '=' !in value;
    BeforeFirstWithout(value, '=');
    assert value == "1995" + "-2004";
    LeadAfter("1995", "-2004");
    assert YearAt("-2004", 1) == 2004;
  }

  lemma EqualsExampleSplit(value: string, d: string, tail: string)
    requires d == "2005:stycz.-2005:luty" && tail == "2485-2492" && value == d + ['='] + tail
    ensures '(' !in value && BeforeFirst(value, '=') == d
  {
    assert '(' !in d && '=' !in d by {
      forall i | 0 <= i < |d| ensures d[i] != '(' && d[i] != '=' { }
    }
    assert '(' !in tail by {
      forall i | 0 <= i < |tail| ensures tail[i] != '(' { }
    }
    BeforeFirstPrefix(d, '=', tail);
  }

  lemma EqualsExampleLead(d: string)
    requires d == "2005:stycz.-2005:luty"
    ensures LeadYear(d) == Some(2005)
  {
    assert d == "2005:stycz." + "-2005:luty";
    LeadAfter("2005:stycz.", "-2005:luty");
    assert YearAt("-2005:luty", 1) == 2005;
  }

  /** Text after '=' is ignored. */
  lemma HoldingEqualsExample(value: string)
    requires value == "2005:stycz.-2005:luty=2485-2492"
    ensures HoldingYears(value) == Some([2005])
  {
    var d, tail := value[..21], value[22..];
    assert d == "2005:stycz.-2005:luty" && tail == "2485-2492";
    assert value == d + ['='] + tail;
    EqualsExampleSplit(value, d, tail);
    EqualsExampleLead(d);
  }

  /** A lone year has no lead character: the source's `match` yields null and
      reading its group throws. */
  lemma HoldingLoneYearExample(value: string)
    requires value == "1995"
    ensures HoldingYears(value) == None
  {
    assert '(' !in value && '=' !in value;
    BeforeFirstWithout(value, '=');
  }

  // ---------------------------------------------------------------------------
  // The year range of a record

  /** The years of the $a subfields of one 866 field, in order. */
  function SubfieldYears(subs: seq<Subfield>): Option<seq<Year>>
    decreases |subs|
  {
    if subs == [] then Some([])
    else
      var last := subs[|subs| - 1];
      match SubfieldYears(subs[..|subs| - 1])
      case None => None
      case Some(ys) =>
        if last.code != "a" then Some(ys)
        else match HoldingYears(last.value)
          case None => None
          case Some(zs) => Some(ys + zs)
  }

  /** The years a field contributes: only 866 fields have any. */
  function FieldYears(f: Field): Option<seq<Year>> {
    if f.id == "866" then SubfieldYears(f.subfields) else Some([])
  }

  /** The years of all 866 $a values of a record, in order; `None` if one of
      them makes the source throw. */
  function RecordYears(fields: seq<Field>): Option<seq<Year>>
    decreases |fields|
  {
    if fields == [] then Some([])
    else match RecordYears(fields[..|fields| - 1])
      case None => None
      case Some(ys) =>
        match FieldYears(fields[|fields| - 1])
        case None => None
        case Some(zs) => Some(ys + zs)
  }

  const ReceivedNote := Subfield("z", "Currently received")

  /** An 852 field with $z exactly "Currently received". */
  predicate IsReceiptField(f: Field) {
    f.id == "852" && ReceivedNote in f.subfields
  }

  predicate AnyReceipt(fields: seq<Field>)
    decreases |fields|
  {
    fields != [] && (AnyReceipt(fields[..|fields| - 1]) || IsReceiptField(fields[|fields| - 1]))
  }

  /** `Math.min` folded over `ys` from `init`. */
  function MinFrom(init: int, ys: seq<int>): (m: int)
    ensures m <= init && forall i :: 0 <= i < |ys| ==> m <= ys[i]
    ensures m == init || m in ys
    decreases |ys|
  {
    if ys == [] then init
    else var m := MinFrom(init, ys[..|ys| - 1]); if ys[|ys| - 1] < m then ys[|ys| - 1] else m
  }

  /** `Math.max` folded over `ys` from `init`. */
  function MaxFrom(init: int, ys: seq<int>): (m: int)
    ensures m >= init && forall i :: 0 <= i < |ys| ==> m >= ys[i]
    ensures m == init || m in ys
    decreases |ys|
  {
    if ys == [] then init
    else var m := MaxFrom(init, ys[..|ys| - 1]); if ys[|ys| - 1] > m then ys[|ys| - 1] else m
  }

  datatype YearRange = YearRange(start: int, end: int)

  /** The range from all of a record's years: the earliest year (or 9999) to
      the latest (or 0), the end raised to 9999 by a current-receipt note.
      `None` where the source throws. */
  function YearRangeOf(fields: seq<Field>): (r: Option<YearRange>)
    ensures r.None? <==> RecordYears(fields).None?
    ensures r.Some? ==> 0 <= r.value.start <= 9999 && 0 <= r.value.end <= 9999
    ensures r.Some? && r.value.end < r.value.start ==> RecordYears(fields) == Some([]) && !AnyReceipt(fields)
  {
    match RecordYears(fields)
    case None => None
    case Some(ys) => Some(YearRange(MinFrom(9999, ys), if AnyReceipt(fields) then 9999 else MaxFrom(0, ys)))
  }

  // ---------------------------------------------------------------------------
  // startEndYears

  lemma MinFromSnoc(init: int, ys: seq<int>, y: int)
    ensures MinFrom(init, ys + [y]) == if y < MinFrom(init, ys) then y else MinFrom(init, ys)
  {
    assert (ys + [y])[..|ys|] == ys;
  }

  lemma MaxFromSnoc(init: int, ys: seq<int>, y: int)
    ensures MaxFrom(init, ys + [y]) == if y > MaxFrom(init, ys) then y else MaxFrom(init, ys)
  {
    assert (ys + [y])[..|ys|] == ys;
  }

  lemma FoldStep(start: int, end: int, dates: seq<int>, k: nat)
    requires k < |dates|
    ensures var m := MinFrom(start, dates[..k]);
      MinFrom(start, dates[..k + 1]) == if dates[k] < m then dates[k] else m
    ensures var m := MaxFrom(end, dates[..k]);
      MaxFrom(end, dates[..k + 1]) == if dates[k] > m then dates[k] else m
  {
    assert dates[..k + 1][..k] == dates[..k] && dates[..k + 1][k] == dates[k];
  }

  /** The `dates.forEach` fold: min and max with each year in turn. */
  method FoldYears(start: int, end: int, dates: seq<Year>) returns (start': int, end': int)
    ensures start' == MinFrom(start, dates) && end' == MaxFrom(end, dates)
  {
    start', end' := start, end;
    for k := 0 to |dates|
      invariant start' == MinFrom(start, dates[..k]) && end' == MaxFrom(end, dates[..k])
    {
      FoldStep(start, end, dates, k);
      start' := if dates[k] < start' then dates[k] else start';
      end' := if dates[k] > end' then dates[k] else end';
    }
    assert dates[..|dates|] == dates;
  }

  lemma {:induction false} MinFromConcat(init: int, xs: seq<int>, ys: seq<int>)
    ensures MinFrom(MinFrom(init, xs), ys) == MinFrom(init, xs + ys)
    decreases |ys|
  {
    if ys == [] {
      assert xs + ys == xs;
    } else {
      var ys', y := ys[..|ys| - 1], ys[|ys| - 1];
      assert xs + ys == (xs + ys') + [y];
      MinFromConcat(init, xs, ys');
      MinFromSnoc(init, xs + ys', y);
    }
  }

  lemma {:induction false} MaxFromConcat(init: int, xs: seq<int>, ys: seq<int>)
    ensures MaxFrom(MaxFrom(init, xs), ys) == MaxFrom(init, xs + ys)
    decreases |ys|
  {
    if ys == [] {
      assert xs + ys == xs;
    } else {
      var ys', y := ys[..|ys| - 1], ys[|ys| - 1];
      assert xs + ys == (xs + ys') + [y];
      MaxFromConcat(init, xs, ys');
      MaxFromSnoc(init, xs + ys', y);
    }
  }

  /** No year exceeds 9999, so folding years into an end of 9999 keeps it. */
  lemma MaxFromCapped(ys: seq<Year>)
    ensures MaxFrom(9999, ys) == 9999
  {
  }

  lemma {:induction false} SubfieldYearsFailurePersists(subs: seq<Subfield>, k: nat)
    requires k <= |subs| && SubfieldYears(subs[..k]) == None
    ensures SubfieldYears(subs) == None
    decreases |subs| - k
  {
    if k < |subs| {
      assert subs[..k + 1][..k] == subs[..k];
      SubfieldYearsFailurePersists(subs, k + 1);
    } else {
      assert subs[..k] == subs;
    }
  }

  lemma {:induction false} RecordYearsFailurePersists(fields: seq<Field>, k: nat)
    requires k <= |fields| && RecordYears(fields[..k]) == None
    ensures RecordYears(fields) == None
    decreases |fields| - k
  {
    if k < |fields| {
      assert fields[..k + 1][..k] == fields[..k];
      RecordYearsFailurePersists(fields, k + 1);
    } else {
      assert fields[..k] == fields;
    }
  }

  /** The `case '866'` loop over one field's subfields. `None` is the throw. */
  method ScanHoldings(subs: seq<Subfield>, start: int, end: int) returns (r: Option<(int, int)>)
    ensures match SubfieldYears(subs)
      case None => r == None
      case Some(ys) => r == Some((MinFrom(start, ys), MaxFrom(end, ys)))
  {
    var s, e := start, end;
    ghost var ys: seq<Year> := [];
    for j := 0 to |subs|
      invariant SubfieldYears(subs[..j]) == Some(ys)
      invariant s == MinFrom(start, ys) && e == MaxFrom(end, ys)
    {
      assert subs[..j + 1][..j] == subs[..j];
      var code, value := subs[j].code, subs[j].value;
      if code == "a" {
        if '(' in value {
          var dates := ParenYears(value, 0);
          s, e := FoldYears(s, e, dates);
          MinFromConcat(start, ys, dates);
          MaxFromConcat(end, ys, dates);
          ys := ys + dates;
        } else {
          var split := BeforeFirst(value, '=');
          var year := LeadYear(split);
          if year.None? {
            SubfieldYearsFailurePersists(subs, j + 1);
            return None;
          }
          MinFromSnoc(start, ys, year.value);
          MaxFromSnoc(end, ys, year.value);
          s := if year.value < s then year.value else s;
          e := if year.value > e then year.value else e;
          ys := ys + [year.value];
        }
      }
    }
    assert subs[..|subs|] == subs;
    r := Some((s, e));
  }

  /** The `case '852'` loop: a current-receipt note sets the end to 9999. */
  method ScanReceipt(subs: seq<Subfield>, end: int) returns (end': int)
    ensures end' == if ReceivedNote in subs then 9999 else end
  {
    end' := end;
    for j := 0 to |subs|
      invariant end' == if ReceivedNote in subs[..j] then 9999 else end
    {
      assert subs[..j + 1] == subs[..j] + [subs[j]];
      if subs[j].code == "z" && subs[j].value == "Currently received" {
        end' := 9999;
      }
    }
    assert subs[..|subs|] == subs;
  }

  lemma RangeStep(fields: seq<Field>, i: nat)
    requires i < |fields|
    ensures AnyReceipt(fields[..i + 1]) == (AnyReceipt(fields[..i]) || IsReceiptField(fields[i]))
    ensures RecordYears(fields[..i + 1]) == match RecordYears(fields[..i])
      case None => None
      case Some(ys) => match FieldYears(fields[i])
        case None => None
        case Some(zs) => Some(ys + zs)
  {
    assert fields[..i + 1][..i] == fields[..i] && fields[..i + 1][i] == fields[i];
  }

  /** `startEndYears(fields)`; `None` where it throws. */
  method StartEndYears(fields: seq<Field>) returns (r: Option<YearRange>)
    ensures r == YearRangeOf(fields)
  {
    var start, end := 9999, 0;
    ghost var ys: seq<Year> := [];
    for i := 0 to |fields|
      invariant RecordYears(fields[..i]) == Some(ys)
      invariant start == MinFrom(9999, ys)
      invariant end == if AnyReceipt(fields[..i]) then 9999 else MaxFrom(0, ys)
    {
      var f := fields[i];
      RangeStep(fields, i);
      if f.id == "852" {
        end := ScanReceipt(f.subfields, end);
        assert ys + [] == ys;
      } else if f.id == "866" {
        var scanned := ScanHoldings(f.subfields, start, end);
        if scanned.None? {
          RecordYearsFailurePersists(fields, i + 1);
          return None;
        }
        var zs := SubfieldYears(f.subfields).value;
        MinFromConcat(9999, ys, zs);
        MaxFromConcat(0, ys, zs);
        if AnyReceipt(fields[..i]) {
          MaxFromCapped(zs);
        }
        start, end := scanned.value.0, scanned.value.1;
        ys := ys + zs;
      } else {
        assert ys + [] == ys;
      }
    }
    assert fields[..|fields|] == fields;
    r := Some(YearRange(start, end));
  }

  // ---------------------------------------------------------------------------
  // What the range says

  /** The range runs from the earliest holdings year to the latest one, or to
      9999 when the title is currently received; with no holdings years the
      sentinels 9999 and 0 remain. */
  lemma RangeBounds(fields: seq<Field>, ys: seq<Year>)
    requires RecordYears(fields) == Some(ys)
    ensures YearRangeOf(fields).Some?
    ensures var r := YearRangeOf(fields).value;
      (forall i :: 0 <= i < |ys| ==> r.start <= ys[i] <= r.end)
      && (ys == [] ==> r.start == 9999)
      && (ys != [] ==> r.start in ys)
      && (AnyReceipt(fields) ==> r.end == 9999)
      && (!AnyReceipt(fields) ==> (if ys == [] then r.end == 0 else r.end in ys))
  {
    if ys != [] {
      assert MinFrom(9999, ys) <= ys[0] <= 9999;
      assert MaxFrom(0, ys) >= ys[0] >= 0;
    }
  }

  /** Appending a field other than 852 and 866 does not move the range. */
  lemma RangeIgnoresOtherTags(fields: seq<Field>, f: Field)
    requires f.id != "852" && f.id != "866"
    ensures YearRangeOf(fields + [f]) == YearRangeOf(fields)
  {
    var all := fields + [f];
    assert all[..|all| - 1] == fields;
    assert !IsReceiptField(f);
    match RecordYears(fields)
    case None =>
    case Some(ys) =>
      assert ys + [] == ys;
  }

  /** An 866 $a value that makes the year reading throw. */
  predicate ThrowsOn(sub: Subfield) {
    sub.code == "a" && HoldingYears(sub.value) == None
  }

  /** A field's subfields throw exactly when one of its $a values does. */
  lemma {:induction false} SubfieldYearsFail(subs: seq<Subfield>)
    ensures SubfieldYears(subs) == None <==> exists j :: 0 <= j < |subs| && ThrowsOn(subs[j])
    decreases |subs|
  {
    if subs != [] {
      var init := subs[..|subs| - 1];
      SubfieldYearsFail(init);
      if exists j :: 0 <= j < |init| && ThrowsOn(init[j]) {
        var j :| 0 <= j < |init| && ThrowsOn(init[j]);
        assert subs[j] == init[j];
      }
      if exists j :: 0 <= j < |subs| && ThrowsOn(subs[j]) {
        var j :| 0 <= j < |subs| && ThrowsOn(subs[j]);
        if j < |init| {
          assert init[j] == subs[j];
        }
      }
    }
  }

  /** An 866 field with an $a value that makes the year reading throw. */
  predicate FieldThrows(f: Field) {
    f.id == "866" && exists j :: 0 <= j < |f.subfields| && ThrowsOn(f.subfields[j])
  }

  lemma FieldYearsFail(f: Field)
    ensures FieldYears(f) == None <==> FieldThrows(f)
  {
    SubfieldYearsFail(f.subfields);
  }

  /** A record's years cannot be read exactly when one of its 866 fields has an
      $a value that makes the reading throw. */
  lemma {:induction false} RecordYearsFail(fields: seq<Field>)
    ensures RecordYears(fields) == None <==> exists i :: 0 <= i < |fields| && FieldThrows(fields[i])
    decreases |fields|
  {
    if fields != [] {
      var init, f := fields[..|fields| - 1], fields[|fields| - 1];
      RecordYearsFail(init);
      FieldYearsFail(f);
      if exists i :: 0 <= i < |init| && FieldThrows(init[i]) {
        var i :| 0 <= i < |init| && FieldThrows(init[i]);
        assert fields[i] == init[i];
      }
      if exists i :: 0 <= i < |fields| && FieldThrows(fields[i]) {
        var i :| 0 <= i < |fields| && FieldThrows(fields[i]);
        if i < |init| {
          assert init[i] == fields[i];
        }
      }
    }
  }

  // ---------------------------------------------------------------------------
  // Selecting records (the handler's loop over the present response)

  /** The `year` query parameter: absent or empty, a numeric string, or a
      string JavaScript's relational comparison reads as NaN. */
  datatype YearParam = NoYear | YearNum(n: int) | YearNaN

  /** The query parameters; an absent `isbn` or `issn` is the empty string. */
  datatype QueryParams = QueryParams(isbn: string, issn: string, year: YearParam)

  /** `year && issn`: only then is the record's year range consulted. */
  predicate ChecksYear(q: QueryParams) {
    q.year != NoYear && q.issn != ""
  }

  /** Whether a record is a valid entry; `None` where `startEndYears` throws. */
  function Keep(q: QueryParams, fields: seq<Field>): (r: Option<bool>)
    ensures r.None? <==> ChecksYear(q) && YearRangeOf(fields).None?
    ensures ChecksYear(q) && r == Some(true) ==> q.year.YearNum? && 0 <= q.year.n <= 9999
  {
    if ChecksYear(q) then
      match YearRangeOf(fields)
      case None => None
      case Some(r) => Some(q.year.YearNum? && r.start <= q.year.n && q.year.n <= r.end)
    else Some(q.isbn != "" || q.year == NoYear)
  }

  /** The valid entries, in record order; `None` where the loop throws. */
  function KeptRecords(q: QueryParams, records: seq<Record>): (r: Option<seq<Record>>)
    ensures r.None? ==> ChecksYear(q)
    ensures r.Some? ==> |r.value| <= |records|
    decreases |records|
  {
    if records == [] then Some([])
    else
      var last := records[|records| - 1];
      match KeptRecords(q, records[..|records| - 1])
      case None => None
      case Some(kept) =>
        match Keep(q, last.fields)
        case None => None
        case Some(k) => Some(kept + if k then [last] else [])
  }

  /** `mapItem(record)` with the default system id, as the handler calls it. */
  function EntryOf(record: Record): Summary {
    SummaryOf(record, "")
  }

  lemma {:induction false} KeptFailurePersists(q: QueryParams, records: seq<Record>, k: nat)
    requires k <= |records| && KeptRecords(q, records[..k]) == None
    ensures KeptRecords(q, records) == None
    decreases |records| - k
  {
    if k < |records| {
      assert records[..k + 1][..k] == records[..k];
      KeptFailurePersists(q, records, k + 1);
    } else {
      assert records[..k] == records;
    }
  }

  /** One more record through the selection. */
  lemma KeptSnoc(q: QueryParams, records: seq<Record>, i: nat, kept: seq<Record>)
    requires i < |records| && KeptRecords(q, records[..i]) == Some(kept)
    ensures KeptRecords(q, records[..i + 1]) == match Keep(q, records[i].fields)
      case None => None
      case Some(k) => Some(kept + if k then [records[i]] else [])
  {
    assert records[..i + 1][..i] == records[..i];
  }

  /** The body of the `forEach` up to the test: whether one record is a valid
      entry, `None` where `startEndYears` throws. */
  method ValidEntry(q: QueryParams, fields: seq<Field>) returns (verdict: Option<bool>)
    ensures verdict == Keep(q, fields)
  {
    var isValidEntry := q.isbn != "" || q.year == NoYear;
    if q.year != NoYear && q.issn != "" {
      var range := StartEndYears(fields);
      if range.None? {
        return None;
      }
      isValidEntry := q.year.YearNum? && range.value.start <= q.year.n && q.year.n <= range.value.end;
    }
    verdict := Some(isValidEntry);
  }

  /** The `forEach` over the present response's records: the summaries of the
      valid entries, or `None` where it throws. */
  method SelectEntries(q: QueryParams, records: seq<Record>) returns (r: Option<seq<Summary>>)
    ensures match KeptRecords(q, records)
      case None => r == None
      case Some(kept) => r == Some(MapSeq(kept, EntryOf))
  {
    var validEntries: seq<Summary> := [];
    ghost var kept: seq<Record> := [];
    for i := 0 to |records|
      invariant KeptRecords(q, records[..i]) == Some(kept)
      invariant validEntries == MapSeq(kept, EntryOf)
    {
      var record := records[i];
      KeptSnoc(q, records, i, kept);
      var verdict := ValidEntry(q, record.fields);
      if verdict.None? {
        KeptFailurePersists(q, records, i + 1);
        return None;
      }
      var isValidEntry := verdict.value;
      if isValidEntry {
        var summary := MapItem(record, "");
        MapSeqSnoc(kept, record, EntryOf);
        validEntries := validEntries + [summary];
        kept := kept + [record];
      } else {
        assert kept + [] == kept;
      }
    }
    assert records[..|records|] == records;
    r := Some(validEntries);
  }

  /** Without a year check, a book query (or one without a year) keeps every
      record and an article query with a year but no issn keeps none. */
  lemma {:induction false} KeptWithoutYearCheck(q: QueryParams, records: seq<Record>)
    requires !ChecksYear(q)
    ensures KeptRecords(q, records) == Some(if q.isbn != "" || q.year == NoYear then records else [])
    decreases |records|
  {
    if records != [] {
      var init := records[..|records| - 1];
      KeptWithoutYearCheck(q, init);
      if q.isbn != "" || q.year == NoYear {
        assert init + [records[|records| - 1]] == records;
      } else {
        assert KeptRecords(q, init).value + [] == [];
      }
    }
  }

  /** The selection fails exactly when the year range is consulted and some
      record's holdings make it throw. */
  lemma {:induction false} KeptFails(q: QueryParams, records: seq<Record>)
    ensures KeptRecords(q, records) == None <==>
      ChecksYear(q) && exists i :: 0 <= i < |records| && YearRangeOf(records[i].fields) == None
    decreases |records|
  {
    if records != [] {
      var init := records[..|records| - 1];
      KeptFails(q, init);
      if exists i :: 0 <= i < |init| && YearRangeOf(init[i].fields) == None {
        var i :| 0 <= i < |init| && YearRangeOf(init[i].fields) == None;
        assert records[i] == init[i];
      }
      if exists i :: 0 <= i < |records| && YearRangeOf(records[i].fields) == None {
        var i :| 0 <= i < |records| && YearRangeOf(records[i].fields) == None;
        if i < |init| {
          assert init[i] == records[i];
        }
      }
    }
  }

  /** The selection holds exactly the records that are valid entries, and
      never more entries than records. */
  lemma {:induction false} KeptMembers(q: QueryParams, records: seq<Record>, kept: seq<Record>)
    requires KeptRecords(q, records) == Some(kept)
    ensures |kept| <= |records|
    ensures forall r :: r in kept <==> r in records && Keep(q, r.fields) == Some(true)
    decreases |records|
  {
    if records != [] {
      var init, last := records[..|records| - 1], records[|records| - 1];
      assert records == init + [last];
      KeptMembers(q, init, KeptRecords(q, init).value);
    }
  }

  /** Under a year check with a numeric year, a record is kept exactly when
      its earliest holdings year (or 9999) is not after the year and its latest
      holdings year (or 9999 on a current receipt, or 0) is not before it. In
      particular a record with no holdings years and no receipt is never kept. */
  lemma KeepByEvidence(q: QueryParams, fields: seq<Field>, ys: seq<Year>)
    requires ChecksYear(q) && q.year.YearNum? && RecordYears(fields) == Some(ys)
    ensures var y := q.year.n;
      Keep(q, fields) == Some(
        (y >= 9999 || exists i :: 0 <= i < |ys| && ys[i] <= y)
        && ((AnyReceipt(fields) && y <= 9999) || y <= 0 || exists i :: 0 <= i < |ys| && y <= ys[i]))
  {
    var y := q.year.n;
    var start, end := MinFrom(9999, ys), MaxFrom(0, ys);
    if start <= y && start != 9999 {
      var i :| 0 <= i < |ys| && ys[i] == start;
    }
    if !AnyReceipt(fields) && end >= y && end != 0 {
      var i :| 0 <= i < |ys| && ys[i] == end;
    }
  }

  /** A year that does not read as a number keeps no record under a year check. */
  lemma {:induction false} NaNYearKeepsNothing(q: QueryParams, records: seq<Record>)
    requires ChecksYear(q) && q.year == YearNaN
    ensures KeptRecords(q, records) == None || KeptRecords(q, records) == Some([])
    decreases |records|
  {
    if records != [] {
      var init := records[..|records| - 1];
      NaNYearKeepsNothing(q, init);
      if KeptRecords(q, init).Some? {
        var none: seq<Record> := [];
        assert none + [] == none;
      }
    }
  }

  // ---------------------------------------------------------------------------
  // The find request

  /** The clause that keeps electronic resources out of the find request. */
  const ExcludeElectronic := "+NOT+WTP=electronic+resource"

  /** The find request for a query, `None` where the handler answers 400 (no
      isbn and no issn). An isbn takes precedence over an issn. */
  function SearchRequest(isbn: string, issn: string): (r: Option<string>)
    ensures r.None? <==> isbn == "" && issn == ""
    ensures r.Some? ==> 4 + |ExcludeElectronic| <= |r.value| && r.value[..4] == (if isbn != "" then "020=" else "022=")
    ensures r.Some? ==> r.value[|r.value| - |ExcludeElectronic|..] == ExcludeElectronic
  {
    if isbn == "" && issn == "" then None
    else Some((if isbn != "" then "020=" + isbn else "022=" + issn) + ExcludeElectronic)
  }

  /** Splits a find request back into its field code and search term. */
  function ParseSearchRequest(request: string): Option<(string, string)> {
    var n := |request|;
    var m := |ExcludeElectronic|;
    if n >= 4 + m && request[3] == '=' && request[n - m..] == ExcludeElectronic
    then Some((request[..3], request[4..n - m]))
    else None
  }

  /** The request names the isbn field (020) with the isbn when there is one,
      the issn field (022) with the issn otherwise, and both are read back. */
  lemma SearchRequestRoundTrip(isbn: string, issn: string)
    ensures SearchRequest(isbn, issn).None? <==> isbn == "" && issn == ""
    ensures SearchRequest(isbn, issn).Some? ==>
      ParseSearchRequest(SearchRequest(isbn, issn).value) == Some(if isbn != "" then ("020", isbn) else ("022", issn))
  {
    if isbn != "" || issn != "" {
      var code, term := if isbn != "" then "020" else "022", if isbn != "" then isbn else issn;
      assert SearchRequest(isbn, issn).value == code + "=" + term + ExcludeElectronic;
      ParseBuilt(code, term);
    }
  }

  /** A request built from a three-character code and any term splits back
      into that code and term. */
  lemma ParseBuilt(code: string, term: string)
    requires |code| == 3
    ensures ParseSearchRequest(code + "=" + term + ExcludeElectronic) == Some((code, term))
  {
    var request := code + "=" + term + ExcludeElectronic;
    var n, m := |request|, |ExcludeElectronic|;
    assert request[n - m..] == ExcludeElectronic;
    assert request[..3] == code;
    assert request[4..n - m] == term;
  }
}
