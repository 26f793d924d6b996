/** Field lookup over a parsed record (`getRecordValue` in src/shared/helpers.js):
    filter the variable fields by tag and indicators, then either return the
    matching fields or join the first subfield with a given code of each. */
module FieldIndex {
  import opened Strings

  /** `<subfield label="…">value</subfield>`; the label is called `code` here, as in MARC. */
  datatype Subfield = Subfield(code: string, value: string)

  /** `<varfield id="…" i1="…" i2="…">…</varfield>` */
  datatype Field = Field(id: string, i1: string, i2: string, subfields: seq<Subfield>)

  /** A lookup argument as the JavaScript call sites pass it: `null`, a number
      literal or a string literal. */
  datatype JsArg = Null | Num(n: nat) | Str(s: string)

  /** JavaScript truthiness: `null`, `0` and `''` are falsy. */
  predicate Truthy(a: JsArg) {
    match a
    case Null => false
    case Num(n) => n != 0
    case Str(s) => s != ""
  }

  /** `a.toString()` */
  function ToStr(a: JsArg): string {
    match a
    case Null => "null"
    case Num(n) => Decimal(n)
    case Str(s) => s
  }

  /** A criterion after the `!crit ||` test: `None` means "don't care". */
  function Criterion(a: JsArg): (c: Option<string>)
    ensures c.None? <==> !Truthy(a)
    ensures c.Some? ==> c.value == ToStr(a)
  {
    if Truthy(a) then Some(ToStr(a)) else None
  }

  /** The three criteria of a lookup: tag, first and second indicator. */
  datatype Filter = Filter(id: Option<string>, i1: Option<string>, i2: Option<string>)

  /** No criteria at all (`getRecordValue(x, null, null, null, …)`). */
  const NoFilter := Filter(None, None, None)

  /** The filter the JavaScript arguments `fieldId, i1, i2` stand for. */
  function FilterOf(fieldId: JsArg, i1: JsArg, i2: JsArg): Filter {
    Filter(Criterion(fieldId), Criterion(i1), Criterion(i2))
  }

  /** `!crit || attribute === crit.toString()` */
  predicate Accepts(c: Option<string>, attribute: string) {
    c.None? || attribute == c.value
  }

  predicate Matches(f: Field, flt: Filter) {
    Accepts(flt.id, f.id) && Accepts(flt.i1, f.i1) && Accepts(flt.i2, f.i2)
  }

  /** The `filter` step: the matching fields, in record order. */
  function SelectFields(fields: seq<Field>, flt: Filter): (r: seq<Field>)
    ensures |r| <= |fields|
    ensures forall i :: 0 <= i < |r| ==> Matches(r[i], flt)
    decreases |fields|
  {
    if fields == [] then []
    else (if Matches(fields[0], flt) then [fields[0]] else []) + SelectFields(fields[1..], flt)
  }

  /** The selection holds exactly the matching fields of the record. */
  lemma {:induction false} SelectFieldsMembers(fields: seq<Field>, flt: Filter, f: Field)
    ensures f in SelectFields(fields, flt) <==> f in fields && Matches(f, flt)
    decreases |fields|
  {
    if fields != [] {
      SelectFieldsMembers(fields[1..], flt, f);
      assert f in fields <==> f == fields[0] || f in fields[1..];
    }
  }

  /** Filtering distributes over concatenation, so it keeps record order. */
  lemma {:induction false} SelectFieldsConcat(a: seq<Field>, b: seq<Field>, flt: Filter)
    ensures SelectFields(a + b, flt) == SelectFields(a, flt) + SelectFields(b, flt)
    decreases |a|
  {
    if a != [] {
      assert (a + b)[1..] == a[1..] + b;
      SelectFieldsConcat(a[1..], b, flt);
    } else {
      assert a + b == b;
    }
  }

  /** Position of the first subfield labelled `code` (`find`), or `|subs|`. */
  function FirstIndexOf(subs: seq<Subfield>, code: string): (k: nat)
    ensures k <= |subs|
    ensures k < |subs| ==> subs[k].code == code
    ensures forall j :: 0 <= j < k ==> subs[j].code != code
    decreases |subs|
  {
    if subs == [] then 0
    else if subs[0].code == code then 0
    else 1 + FirstIndexOf(subs[1..], code)
  }

  /** What the `forEach` collects: the first `code` subfield of each field
      that has one, in field order. */
  function FirstSubfields(fields: seq<Field>, code: string): seq<Subfield>
    decreases |fields|
  {
    if fields == [] then []
    else
      var f := fields[|fields| - 1];
      var k := FirstIndexOf(f.subfields, code);
      FirstSubfields(fields[..|fields| - 1], code) + (if k < |f.subfields| then [f.subfields[k]] else [])
  }

  /** A value as a lookup yields it: not blank and already trimmed. */
  predicate IsCleanValue(v: string) {
    v != "" && JsTrim(v) == v
  }

  /** A subfield's value, trimmed. */
  function TrimmedOf(sub: Subfield): string {
    JsTrim(sub.value)
  }

  /** `map(subfield => value.trim()).filter(value => value)` */
  function TrimmedValues(subs: seq<Subfield>): seq<string> {
    NonEmpty(MapSeq(subs, TrimmedOf))
  }

  /** The values a subfield lookup joins: each is non-blank and already trimmed. */
  function Lines(fields: seq<Field>, flt: Filter, code: string): (r: seq<string>)
    ensures forall v :: v in r ==> IsCleanValue(v)
  {
    var subs := FirstSubfields(SelectFields(fields, flt), code);
    TrimmedValuesClean(subs);
    TrimmedValues(subs)
  }

  /** The string a subfield lookup returns: its lines joined with "\n", so it
      neither starts nor ends with whitespace. */
  function Text(fields: seq<Field>, flt: Filter, code: string): (r: string)
    ensures r == [] || (!IsJsSpace(r[0]) && !IsJsSpace(r[|r| - 1]))
  {
    var ls := Lines(fields, flt, code);
    CleanJoin(ls);
    JoinLines(ls)
  }

  /** Joining clean values leaves no whitespace at either end. */
  lemma CleanJoin(ls: seq<string>)
    requires forall v :: v in ls ==> IsCleanValue(v)
    ensures var j := JoinLines(ls); j == [] || (!IsJsSpace(j[0]) && !IsJsSpace(j[|j| - 1]))
  {
    if ls != [] {
      var first, last := ls[0], ls[|ls| - 1];
      assert IsCleanValue(first) && IsCleanValue(last);
      forall i | 0 <= i < |ls| ensures ls[i] != "" {
        assert IsCleanValue(ls[i]);
      }
      JoinLinesEdges(ls);
    }
  }

  /** A lookup on one field with no criteria (`getRecordValue(field, null, null, null, code)`). */
  function FieldText(f: Field, code: string): string {
    Text([f], NoFilter, code)
  }

  /** Either result of `getRecordValue`. */
  datatype RecordValue = FieldList(fields: seq<Field>) | Joined(text: string)

  /** `getRecordValue(fields, fieldId, i1, i2, subfieldId)` */
  method GetRecordValue(fields: seq<Field>, fieldId: JsArg, i1: JsArg, i2: JsArg, subfieldId: JsArg)
    returns (r: RecordValue)
    ensures !Truthy(subfieldId) ==> r == FieldList(SelectFields(fields, FilterOf(fieldId, i1, i2)))
    ensures Truthy(subfieldId) ==> r == Joined(Text(fields, FilterOf(fieldId, i1, i2), ToStr(subfieldId)))
  {
    var filtered := SelectFields(fields, FilterOf(fieldId, i1, i2));
    if !Truthy(subfieldId) {
      return FieldList(filtered);
    }
    var code := ToStr(subfieldId);
    var found: seq<Subfield> := [];
    var k := 0;
    while k < |filtered|
      invariant k <= |filtered|
      invariant found == FirstSubfields(filtered[..k], code)
    {
      var subs := filtered[k].subfields;
      var j := FirstIndexOf(subs, code);
      FirstSubfieldsStep(filtered, k, code);
      if j < |subs| {
        found := found + [subs[j]];
      }
      k := k + 1;
    }
    assert filtered[..k] == filtered;
    r := Joined(JoinLines(TrimmedValues(found)));
  }

  /** `getRecordValue(field, null, null, null, code)`: a lookup inside one field. */
  method ReadFieldText(f: Field, code: string) returns (v: string)
    requires code != ""
    ensures v == FieldText(f, code)
  {
    assert FilterOf(Null, Null, Null) == NoFilter;
    var r := GetRecordValue([f], Null, Null, Null, Str(code));
    v := r.text;
  }

  // ---------------------------------------------------------------------------
  // Properties of the lookup

  /** A falsy criterion is a wildcard: `0`, like `null` and `''`, matches every
      attribute value, so an indicator can never be filtered for "0"; the
      string "0" would. */
  lemma ZeroIsWildcard(attribute: string)
    ensures Accepts(Criterion(Num(0)), attribute) && Accepts(Criterion(Null), attribute)
    ensures Accepts(Criterion(Str("")), attribute)
    ensures Accepts(Criterion(Str("0")), attribute) <==> attribute == "0"
  {
  }

  /** A truthy number criterion compares against its decimal numeral. */
  lemma NumberCriterion(n: nat, attribute: string)
    requires n != 0
    ensures Accepts(Criterion(Num(n)), attribute) <==> attribute == Decimal(n)
    ensures Accepts(Criterion(Num(n)), attribute) ==> AllDigits(attribute) && DigitsValue(attribute) == n
  {
    DecimalRoundTrip(n);
  }

  /** One more field adds its first subfield with the code, if it has one. */
  lemma FirstSubfieldsStep(fs: seq<Field>, k: nat, code: string)
    requires k < |fs|
    ensures var subs := fs[k].subfields;
            var j := FirstIndexOf(subs, code);
            FirstSubfields(fs[..k + 1], code)
              == FirstSubfields(fs[..k], code) + (if j < |subs| then [subs[j]] else [])
  {
    assert fs[..k + 1][..k] == fs[..k];
  }

  lemma {:induction false} FirstSubfieldsConcat(a: seq<Field>, b: seq<Field>, code: string)
    ensures FirstSubfields(a + b, code) == FirstSubfields(a, code) + FirstSubfields(b, code)
    decreases |b|
  {
    if b == [] {
      assert a + b == a;
    } else {
      var b' := b[..|b| - 1];
      assert (a + b)[..|a + b| - 1] == a + b';
      assert (a + b)[|a + b| - 1] == b[|b| - 1];
      FirstSubfieldsConcat(a, b', code);
    }
  }

  /** Every value a lookup yields is non-blank and already trimmed. */
  lemma TrimmedValuesClean(subs: seq<Subfield>)
    ensures forall v :: v in TrimmedValues(subs) ==> IsCleanValue(v)
  {
    var ts := MapSeq(subs, TrimmedOf);
    forall v | v in TrimmedValues(subs) ensures IsCleanValue(v) {
      var i :| 0 <= i < |ts| && ts[i] == v;
      StripIdempotent(subs[i].value, IsJsSpace);
    }
  }

  lemma TrimmedValuesConcat(a: seq<Subfield>, b: seq<Subfield>)
    ensures TrimmedValues(a + b) == TrimmedValues(a) + TrimmedValues(b)
  {
    MapSeqConcat(a, b, TrimmedOf);
    NonEmptyConcat(MapSeq(a, TrimmedOf), MapSeq(b, TrimmedOf));
  }

  /** The lines of a lookup over `a + b` are those over `a` followed by those
      over `b`: the result keeps field order. */
  lemma LinesConcat(a: seq<Field>, b: seq<Field>, flt: Filter, code: string)
    ensures Lines(a + b, flt, code) == Lines(a, flt, code) + Lines(b, flt, code)
  {
    SelectFieldsConcat(a, b, flt);
    FirstSubfieldsConcat(SelectFields(a, flt), SelectFields(b, flt), code);
    TrimmedValuesConcat(FirstSubfields(SelectFields(a, flt), code),
                        FirstSubfields(SelectFields(b, flt), code));
  }

  /** One field contributes at most one line: the trimmed value of its FIRST
      subfield with the code, when the field matches and that value is not
      blank. Later subfields with the same code are never read. */
  lemma LinesOfOneField(f: Field, flt: Filter, code: string)
    ensures var k := FirstIndexOf(f.subfields, code);
            Lines([f], flt, code)
            == if Matches(f, flt) && k < |f.subfields| && JsTrim(f.subfields[k].value) != ""
               then [JsTrim(f.subfields[k].value)]
               else []
  {
    var k := FirstIndexOf(f.subfields, code);
    assert [f][1..] == [];
    assert TrimmedValues([]) == [] by { assert MapSeq([], TrimmedOf) == []; }
    if Matches(f, flt) {
      assert SelectFields([f], flt) == [f];
      assert [f][..0] == [];
      if k < |f.subfields| {
        assert FirstSubfields([f], code) == [f.subfields[k]];
        TrimmedValuesOne(f.subfields[k]);
      }
    }
  }

  lemma TrimmedValuesOne(sub: Subfield)
    ensures TrimmedValues([sub]) == if TrimmedOf(sub) != "" then [TrimmedOf(sub)] else []
  {
    MapSeqOne(sub, TrimmedOf);
    NonEmptyOne(TrimmedOf(sub));
  }

  /** A one-field lookup is the trimmed first value with that code, or "". */
  lemma FieldTextIsFirstValue(f: Field, code: string)
    ensures var k := FirstIndexOf(f.subfields, code);
            FieldText(f, code) == if k < |f.subfields| then JsTrim(f.subfields[k].value) else ""
  {
    LinesOfOneField(f, NoFilter, code);
  }

  /** The one-field lookups of each field, in order. */
  function FieldTexts(fs: seq<Field>, code: string): seq<string>
    decreases |fs|
  {
    if fs == [] then [] else FieldTexts(fs[..|fs| - 1], code) + [FieldText(fs[|fs| - 1], code)]
  }

  lemma FieldTextsSnoc(fs: seq<Field>, f: Field, code: string)
    ensures FieldTexts(fs + [f], code) == FieldTexts(fs, code) + [FieldText(f, code)]
  {
    var w := fs + [f];
    assert w[..|w| - 1] == fs;
  }

  lemma OneFieldLines(f: Field, flt: Filter, code: string)
    ensures SelectFields([f], flt) == if Matches(f, flt) then [f] else []
    ensures Lines([f], flt, code) == if Matches(f, flt) then NonEmpty([FieldText(f, code)]) else []
  {
    LinesOfOneField(f, flt, code);
    FieldTextIsFirstValue(f, code);
    assert [f][1..] == [];
    var t := FieldText(f, code);
    assert [t][..0] == [];
  }

  /** A lookup over many fields is the one-field lookups of the matching
      fields with the blank ones dropped: no field contributes more than its
      own first value, and the order of the record is kept. */
  lemma {:induction false} LinesArePerFieldTexts(fields: seq<Field>, flt: Filter, code: string)
    ensures Lines(fields, flt, code) == NonEmpty(FieldTexts(SelectFields(fields, flt), code))
    decreases |fields|
  {
    if fields != [] {
      var p, f := fields[..|fields| - 1], fields[|fields| - 1];
      assert fields == p + [f];
      var sp := SelectFields(p, flt);
      LinesArePerFieldTexts(p, flt, code);
      LinesConcat(p, [f], flt, code);
      SelectFieldsConcat(p, [f], flt);
      OneFieldLines(f, flt, code);
      if Matches(f, flt) {
        FieldTextsSnoc(sp, f, code);
        NonEmptyConcat(FieldTexts(sp, code), [FieldText(f, code)]);
      } else {
        assert sp + [] == sp;
        assert Lines(p, flt, code) + [] == Lines(p, flt, code);
      }
    }
  }
}
