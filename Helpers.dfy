/** The bibliographic summary mapper of src/shared/helpers.js
    (`trimExtended` and `mapItem`). */
module Helpers {
  import opened Strings
  import opened FieldIndex

  // ---------------------------------------------------------------------------
  // trimExtended

  /** The class `[\\. ]`: backslash, period and space. */
  predicate IsEdgeChar(c: char) {
    c == '\\' || c == '.' || c == ' '
  }

  /** `string.replace(/^[\\. ]+|[\\. ]+$/g, '')`: the leading and the trailing
      run of edge characters go, nothing else. */
  function TrimExtended(s: string): (r: string)
    ensures |r| <= |s|
    ensures r == [] || (!IsEdgeChar(r[0]) && !IsEdgeChar(r[|r| - 1]))
  {
    Strip(s, IsEdgeChar)
  }

  /** trimExtended keeps the interior: whenever `s[a..b]` is surrounded by edge
      characters only and does not itself start or end with one, it is the result. */
  lemma TrimExtendedKeepsInterior(s: string, a: nat, b: nat)
    requires a <= b <= |s|
    requires forall i :: 0 <= i < a ==> IsEdgeChar(s[i])
    requires forall i :: b <= i < |s| ==> IsEdgeChar(s[i])
    requires a < b ==> !IsEdgeChar(s[a]) && !IsEdgeChar(s[b - 1])
    ensures TrimExtended(s) == s[a..b]
  {
    StripIsSlice(s, IsEdgeChar, a, b);
  }

  lemma TrimExtendedIdempotent(s: string)
    ensures TrimExtended(TrimExtended(s)) == TrimExtended(s)
  {
    StripIdempotent(s, IsEdgeChar);
  }

  // ---------------------------------------------------------------------------
  // The summary

  /** A catalog record: `doc_number[0]` and the `varfield` list. */
  datatype Record = Record(docNumber: string, fields: seq<Field>)

  datatype Link = Link(url: string, title: string, notes: string)

  datatype Summary = Summary(
    name: string,
    docNumber: string,
    description: string,
    purl: string,
    urls: seq<Link>,
    relatedResources: seq<Link>,
    access: string,
    accessNotes: string,
    includes: string,
    platform: string,
    publisher: string,
    provider: string)

  // --- the lookups the mapper makes

  function TagFilter(tag: string): Filter {
    Filter(Some(tag), None, None)
  }

  /** The 740 fields with second indicator 2. */
  const IncludesFilter := Filter(Some("740"), None, Some("2"))

  /** The number 0 passed as the second indicator of the 856 lookups in
      `mapItem` is falsy, so those lookups do not filter on the second
      indicator at all, while the lookups with 2 keep only indicator "2". */
  lemma LinkCallSiteFilters()
    ensures FilterOf(Num(856), Num(4), Num(0)) == LinkFilter(None)
    ensures FilterOf(Num(856), Num(4), Num(2)) == LinkFilter(Some("2"))
  {
    assert Decimal(856) == "856" && Decimal(4) == "4" && Decimal(2) == "2";
  }

  // --- description

  /** A 520 field carrying subfield 9 with value exactly "g". */
  predicate IsPreferredDescription(f: Field) {
    Subfield("9", "g") in f.subfields
  }

  /** `descriptionFields.find(...)`: a 520 field that carries $9 "g". */
  function FindPreferred(descriptions: seq<Field>): (r: Option<Field>)
    ensures r.Some? ==> r.value in descriptions && IsPreferredDescription(r.value)
    decreases |descriptions|
  {
    if descriptions == [] then None
    else if IsPreferredDescription(descriptions[0]) then Some(descriptions[0])
    else FindPreferred(descriptions[1..])
  }

  /** The preferred 520 field, else the first one, else none. */
  function ChooseDescription(descriptions: seq<Field>): (r: Option<Field>)
    ensures r.None? <==> descriptions == []
    ensures r.Some? ==> r.value in descriptions
    ensures r.Some? && !IsPreferredDescription(r.value) ==> r.value == descriptions[0]
  {
    match FindPreferred(descriptions)
    case Some(f) => Some(f)
    case None => if descriptions != [] then Some(descriptions[0]) else None
  }

  /** `typy(x).safeArray`: an absent value is an empty list, one object a singleton. */
  function AsList(f: Option<Field>): seq<Field> {
    if f.Some? then [f.value] else []
  }

  /** The 520 fields of a record, in order. */
  function Descriptions(fields: seq<Field>): seq<Field> {
    SelectFields(fields, TagFilter("520"))
  }

  function DescriptionOf(fields: seq<Field>): string {
    Text(AsList(ChooseDescription(Descriptions(fields))), NoFilter, "a")
  }

  // --- links

  function LinkOf(f: Field): Link {
    Link(FieldText(f, "u"), FieldText(f, "3"), FieldText(f, "z"))
  }

  /** One link per field, in field order. */
  function LinkList(fs: seq<Field>): (links: seq<Link>)
    ensures |links| == |fs|
    ensures forall i :: 0 <= i < |fs| ==> links[i] == LinkOf(fs[i])
    decreases |fs|
  {
    if fs == [] then [] else LinkList(fs[..|fs| - 1]) + [LinkOf(fs[|fs| - 1])]
  }

  /** The 856 fields with first indicator 4 and the given second-indicator criterion. */
  function LinkFilter(i2: Option<string>): Filter {
    Filter(Some("856"), Some("4"), i2)
  }

  /** The links of the 856 fields with first indicator 4 that pass `i2`. */
  function LinksOf(fields: seq<Field>, i2: Option<string>): seq<Link> {
    LinkList(SelectFields(fields, LinkFilter(i2)))
  }

  // --- access

  const NotreDameUsers := "Notre Dame faculty, staff, and students"

  /** The phrase rewrites applied, in this order, to every access value. */
  const AccessRewrites: seq<(string, string)> := [
    ("Online access with authorization", NotreDameUsers),
    ("Access restricted to subscribers", NotreDameUsers),
    ("Restricted to subscribing institutions", NotreDameUsers),
    ("Subscription required for access", NotreDameUsers),
    ("Restricted to users with valid Notre Dame NetIDs", NotreDameUsers),
    ("Unrestricted online access", "Public")
  ]

  /** The 506 subfields read for access, in priority order. */
  const AccessLetters: seq<string> := ["f", "a", "c"]

  /** A chain of first-occurrence replacements. A value containing none of the
      phrases comes through unchanged. */
  function RewriteWith(v: string, table: seq<(string, string)>): (r: string)
    ensures (forall k :: 0 <= k < |table| ==> !Contains(v, table[k].0)) ==> r == v
    decreases |table|
  {
    if table == [] then v
    else
      assert forall k :: 0 <= k < |table| - 1 ==> table[1..][k] == table[k + 1];
      RewriteWith(ReplaceFirst(v, table[0].0, table[0].1), table[1..])
  }

  /** Rewrites whose phrases and replacements are all non-empty never blank
      a value nor fill a blank one. */
  lemma {:induction false} RewriteKeepsBlankness(v: string, table: seq<(string, string)>)
    requires forall k :: 0 <= k < |table| ==> table[k].0 != "" && table[k].1 != ""
    ensures RewriteWith(v, table) == "" <==> v == ""
    decreases |table|
  {
    if table != [] {
      ReplaceFirstEmptiness(v, table[0].0, table[0].1);
      RewriteKeepsBlankness(ReplaceFirst(v, table[0].0, table[0].1), table[1..]);
    }
  }

  /** No access phrase and no replacement of one is empty. */
  lemma AccessRewritesNonEmpty()
    ensures forall k :: 0 <= k < |AccessRewrites| ==> AccessRewrites[k].0 != "" && AccessRewrites[k].1 != ""
  {
    var t := AccessRewrites;
    assert |t| == 6;
    assert |t[0].0| > 0 && |t[1].0| > 0 && |t[2].0| > 0 && |t[3].0| > 0 && |t[4].0| > 0 && |t[5].0| > 0;
    assert |t[0].1| > 0 && |t[1].1| > 0 && |t[2].1| > 0 && |t[3].1| > 0 && |t[4].1| > 0 && |t[5].1| > 0;
  }

  /** One access value: the edge-trimmed subfield through the rewrite table.
      It is blank exactly when the edge-trimmed subfield is. */
  function AccessValue(restriction: Field, letter: string): (r: string)
    ensures r == "" <==> TrimExtended(FieldText(restriction, letter)) == ""
  {
    var t := TrimExtended(FieldText(restriction, letter));
    AccessRewritesNonEmpty();
    RewriteKeepsBlankness(t, AccessRewrites);
    RewriteWith(t, AccessRewrites)
  }

  /** The non-empty access values of one letter, over the 506 fields in order. */
  function LetterLines(restrictions: seq<Field>, letter: string): (r: seq<string>)
    ensures AllNonEmpty(r)
    decreases |restrictions|
  {
    if restrictions == [] then []
    else
      var v := AccessValue(restrictions[|restrictions| - 1], letter);
      LetterLines(restrictions[..|restrictions| - 1], letter) + (if v != "" then [v] else [])
  }

  lemma LetterLinesSnoc(restrictions: seq<Field>, r: Field, letter: string)
    ensures var v := AccessValue(r, letter);
      LetterLines(restrictions + [r], letter) == LetterLines(restrictions, letter) + (if v != "" then [v] else [])
  {
    var rs := restrictions + [r];
    assert rs[..|rs| - 1] == restrictions;
  }

  /** The access lines for each letter in turn. */
  function AccessLines(restrictions: seq<Field>, letters: seq<string>): (r: seq<string>)
    ensures AllNonEmpty(r)
    decreases |letters|
  {
    if letters == [] then []
    else AccessLines(restrictions, letters[..|letters| - 1]) + LetterLines(restrictions, letters[|letters| - 1])
  }

  function AccessOf(fields: seq<Field>): string {
    JoinLines(AccessLines(SelectFields(fields, TagFilter("506")), AccessLetters))
  }

  // --- access notes

  /** The 538 $a lookup, blanked when it mentions the World Wide Web. */
  function AccessNotesOf(fields: seq<Field>): (r: string)
    ensures !Contains(r, "World Wide Web")
  {
    var notes := Text(fields, TagFilter("538"), "a");
    if Contains(notes, "World Wide Web") then
      assert IndexOfFrom("", "World Wide Web", 0).None?;
      ""
    else notes
  }

  // --- platform, publisher, provider

  datatype Roles = Roles(platform: string, publisher: string, provider: string)

  /** The $a values of the 710 fields whose $4 role code is `role`, in order. */
  function RoleValues(metas: seq<Field>, role: string): seq<string>
    decreases |metas|
  {
    if metas == [] then []
    else
      var m := metas[|metas| - 1];
      RoleValues(metas[..|metas| - 1], role) + (if FieldText(m, "4") == role then [FieldText(m, "a")] else [])
  }

  function RolesFrom(metas: seq<Field>): Roles {
    Roles(AppendAll(RoleValues(metas, "pltfrm")),
          AppendAll(RoleValues(metas, "pbl")),
          AppendAll(RoleValues(metas, "prv")))
  }

  /** The 710 fields with second indicator exactly " ". */
  const RoleFilter := Filter(Some("710"), None, Some(" "))

  function RoleFields(fields: seq<Field>): seq<Field> {
    SelectFields(fields, RoleFilter)
  }

  function RolesOf(fields: seq<Field>): Roles {
    RolesFrom(RoleFields(fields))
  }

  // --- the whole summary

  /** The given system id, else the record's document number without its
      surrounding whitespace. */
  function DocNumberOf(record: Record, systemId: string): (r: string)
    ensures systemId != "" ==> r == systemId
    ensures systemId == "" ==> r == [] || (!IsJsSpace(r[0]) && !IsJsSpace(r[|r| - 1]))
  {
    if systemId != "" then systemId else JsTrim(record.docNumber)
  }

  /** The summary `mapItem(record, systemId)` builds. The given system id wins
      over the record's document number, and the access notes never mention
      the World Wide Web. */
  function SummaryOf(record: Record, systemId: string): (r: Summary)
    ensures systemId != "" ==> r.docNumber == systemId
    ensures !Contains(r.accessNotes, "World Wide Web")
  {
    var fields := record.fields;
    var roles := RolesOf(fields);
    Summary(
      name := TrimExtended(Text(fields, TagFilter("245"), "a")),
      docNumber := DocNumberOf(record, systemId),
      description := DescriptionOf(fields),
      purl := Text(fields, LinkFilter(None), "u"),
      urls := LinksOf(fields, None),
      relatedResources := LinksOf(fields, Some("2")),
      access := AccessOf(fields),
      accessNotes := AccessNotesOf(fields),
      includes := TrimExtended(Text(fields, IncludesFilter, "a")),
      platform := roles.platform,
      publisher := roles.publisher,
      provider := roles.provider)
  }

  // ---------------------------------------------------------------------------
  // mapItem

  /** The `forEach` callback that reads one 856 field into a link. */
  method ReadLink(link: Field) returns (l: Link)
    ensures l == LinkOf(link)
  {
    var url := ReadFieldText(link, "u");
    var title := ReadFieldText(link, "3");
    var notes := ReadFieldText(link, "z");
    l := Link(url, title, notes);
  }

  lemma LinkListStep(fs: seq<Field>, k: nat)
    requires k < |fs|
    ensures LinkList(fs[..k + 1]) == LinkList(fs[..k]) + [LinkOf(fs[k])]
  {
    assert fs[..k + 1][..k] == fs[..k] && fs[..k + 1][k] == fs[k];
  }

  /** The `forEach` that turns each selected 856 field into a link. */
  method CollectLinks(fields: seq<Field>, i2: JsArg) returns (links: seq<Link>)
    ensures links == LinksOf(fields, Criterion(i2))
  {
    assert FilterOf(Num(856), Num(4), i2) == LinkFilter(Criterion(i2)) by { assert Decimal(856) == "856" && Decimal(4) == "4"; }
    var selected := GetRecordValue(fields, Num(856), Num(4), i2, Null);
    var matches := selected.fields;
    links := [];
    var k := 0;
    while k < |matches|
      invariant k <= |matches|
      invariant links == LinkList(matches[..k])
    {
      var link := ReadLink(matches[k]);
      LinkListStep(matches, k);
      links := links + [link];
      k := k + 1;
    }
    assert matches[..k] == matches;
  }

  /** The rewritten, edge-trimmed value of one 506 subfield. */
  method ReadAccessValue(restriction: Field, letter: string) returns (value: string)
    requires letter != ""
    ensures value == AccessValue(restriction, letter)
  {
    var one := ReadFieldText(restriction, letter);
    value := RewriteWith(TrimExtended(one), AccessRewrites);
  }

  lemma LetterLinesAt(restrictions: seq<Field>, k: nat, letter: string)
    requires k < |restrictions|
    ensures var v := AccessValue(restrictions[k], letter);
      LetterLines(restrictions[..k + 1], letter) == LetterLines(restrictions[..k], letter) + (if v != "" then [v] else [])
  {
    assert restrictions[..k + 1] == restrictions[..k] + [restrictions[k]];
    LetterLinesSnoc(restrictions[..k], restrictions[k], letter);
  }

  /** The accumulation idiom on one more value: the text grows by the value
      exactly when it is not empty. */
  lemma AccumulateStep(prior: seq<string>, ls: seq<string>, acc: string, value: string)
    requires acc == AppendAll(prior + ls)
    ensures (if value != "" then Append(acc, value) else acc)
         == AppendAll(prior + (ls + (if value != "" then [value] else [])))
  {
    if value != "" {
      var xs := prior + ls;
      assert prior + (ls + [value]) == xs + [value];
      assert (xs + [value])[..|xs|] == xs;
    } else {
      assert ls + [] == ls;
    }
  }

  /** The inner `forEach` over the 506 fields for one letter: each non-empty
      value is appended to the access text on a line of its own. */
  method AppendLetterLines(access: string, ghost prior: seq<string>, restrictions: seq<Field>, letter: string)
    returns (result: string)
    requires letter != ""
    requires access == AppendAll(prior)
    ensures result == AppendAll(prior + LetterLines(restrictions, letter))
  {
    result := access;
    assert prior + LetterLines(restrictions[..0], letter) == prior;
    for k := 0 to |restrictions|
      invariant result == AppendAll(prior + LetterLines(restrictions[..k], letter))
    {
      var value := ReadAccessValue(restrictions[k], letter);
      LetterLinesAt(restrictions, k, letter);
      AccumulateStep(prior, LetterLines(restrictions[..k], letter), result, value);
      if value != "" {
        result := Append(result, value);
      }
    }
    assert restrictions[..|restrictions|] == restrictions;
  }

  lemma AccessLinesStep(d: seq<Field>, letters: seq<string>, i: nat)
    requires i < |letters|
    ensures AccessLines(d, letters[..i + 1]) == AccessLines(d, letters[..i]) + LetterLines(d, letters[i])
  {
    assert letters[..i + 1][..i] == letters[..i];
  }

  /** The access text is the accumulation of the access lines. */
  lemma AccessIsAccumulated(fields: seq<Field>)
    ensures AccessOf(fields) == AppendAll(AccessLines(SelectFields(fields, TagFilter("506")), AccessLetters))
  {
    AppendAllJoins(AccessLines(SelectFields(fields, TagFilter("506")), AccessLetters));
  }

  /** The nested `forEach` over the letters f, a, c and the 506 fields. */
  method CollectAccess(fields: seq<Field>) returns (access: string)
    ensures access == AccessOf(fields)
  {
    ghost var d := SelectFields(fields, TagFilter("506"));
    assert FilterOf(Num(506), Null, Null) == TagFilter("506") by { assert Decimal(506) == "506"; }
    var letters := AccessLetters;
    assert forall j :: 0 <= j < |letters| ==> letters[j] != "";
    access := "";
    for i := 0 to |letters|
      invariant access == AppendAll(AccessLines(d, letters[..i]))
    {
      var letter := letters[i];
      var rv := GetRecordValue(fields, Num(506), Null, Null, Null);
      access := AppendLetterLines(access, AccessLines(d, letters[..i]), rv.fields, letter);
      AccessLinesStep(d, letters, i);
    }
    assert letters[..|letters|] == letters;
    AccessIsAccumulated(fields);
  }

  /** The `forEach` callback's two reads from one 710 field: its $4 role code
      (asked for by the number 4) and its $a value. */
  method ReadRole(meta: Field) returns (sub4: string, metaValue: string)
    ensures sub4 == FieldText(meta, "4") && metaValue == FieldText(meta, "a")
  {
    assert ToStr(Num(4)) == "4" by { assert Decimal(4) == "4"; }
    var r4 := GetRecordValue([meta], Null, Null, Null, Num(4));
    sub4 := r4.text;
    metaValue := ReadFieldText(meta, "a");
  }

  /** One step of the 710 `forEach`: a role value goes to the slot its code names. */
  /** The slot a role code names receives the value; the other slots, and all
      of them for any other code, are left alone. */
  function RouteRole(roles: Roles, code: string, value: string): (r: Roles)
    ensures r.platform == if code == "pltfrm" then Append(roles.platform, value) else roles.platform
    ensures r.publisher == if code == "pbl" then Append(roles.publisher, value) else roles.publisher
    ensures r.provider == if code == "prv" then Append(roles.provider, value) else roles.provider
  {
    if code == "pltfrm" then roles.(platform := Append(roles.platform, value))
    else if code == "pbl" then roles.(publisher := Append(roles.publisher, value))
    else if code == "prv" then roles.(provider := Append(roles.provider, value))
    else roles
  }

  /** Reading one more 710 field adds its $a value to the values of its role. */
  lemma RoleValuesSnoc(metas: seq<Field>, m: Field, role: string)
    ensures AppendAll(RoleValues(metas + [m], role))
         == if FieldText(m, "4") == role then Append(AppendAll(RoleValues(metas, role)), FieldText(m, "a"))
            else AppendAll(RoleValues(metas, role))
  {
    var ms := metas + [m];
    assert ms[..|ms| - 1] == metas && ms[|ms| - 1] == m;
    var vs := RoleValues(metas, role);
    if FieldText(m, "4") == role {
      var ws := vs + [FieldText(m, "a")];
      assert RoleValues(ms, role) == ws;
      assert ws[..|ws| - 1] == vs && ws[|ws| - 1] == FieldText(m, "a");
    } else {
      assert vs + [] == vs;
      assert RoleValues(ms, role) == vs;
    }
  }

  /** Reading one more 710 field routes its $a value by its $4 code. */
  lemma RolesFromSnoc(metas: seq<Field>, m: Field)
    ensures RolesFrom(metas + [m]) == RouteRole(RolesFrom(metas), FieldText(m, "4"), FieldText(m, "a"))
  {
    RoleValuesSnoc(metas, m, "pltfrm");
    RoleValuesSnoc(metas, m, "pbl");
    RoleValuesSnoc(metas, m, "prv");
  }

  lemma RolesStep(metas: seq<Field>, k: nat)
    requires k < |metas|
    ensures RolesFrom(metas[..k + 1]) == RouteRole(RolesFrom(metas[..k]), FieldText(metas[k], "4"), FieldText(metas[k], "a"))
  {
    assert metas[..k + 1] == metas[..k] + [metas[k]];
    RolesFromSnoc(metas[..k], metas[k]);
  }

  /** The `forEach` over the 710 fields, routing $a by the $4 role code. */
  method CollectRoles(fields: seq<Field>) returns (platform: string, publisher: string, provider: string)
    ensures Roles(platform, publisher, provider) == RolesOf(fields)
  {
    assert FilterOf(Num(710), Null, Str(" ")) == RoleFilter by { assert Decimal(710) == "710"; }
    var rv := GetRecordValue(fields, Num(710), Null, Str(" "), Null);
    var metas := rv.fields;
    platform, publisher, provider := "", "", "";
    var k := 0;
    assert Roles(platform, publisher, provider) == RolesFrom(metas[..k]) by {
      assert metas[..k] == [];
      assert RoleValues([], "pltfrm") == RoleValues([], "pbl") == RoleValues([], "prv") == [];
    }
    while k < |metas|
      invariant k <= |metas|
      invariant Roles(platform, publisher, provider) == RolesFrom(metas[..k])
    {
      var sub4, metaValue := ReadRole(metas[k]);
      RolesStep(metas, k);
      if sub4 == "pltfrm" {
        platform := Append(platform, metaValue);
      } else if sub4 == "pbl" {
        publisher := Append(publisher, metaValue);
      } else if sub4 == "prv" {
        provider := Append(provider, metaValue);
      }
      k := k + 1;
    }
    assert metas[..k] == metas;
  }

  /** The 520 field to describe the item: the first with $9 "g", else the first. */
  method ReadDescription(fields: seq<Field>) returns (description: string)
    ensures description == DescriptionOf(fields)
  {
    assert FilterOf(Num(520), Null, Null) == TagFilter("520") by { assert Decimal(520) == "520"; }
    var rv := GetRecordValue(fields, Num(520), Null, Null, Null);
    var descriptionFields := rv.fields;
    var descriptionField := FindPreferred(descriptionFields);
    if descriptionField.None? && |descriptionFields| > 0 {
      descriptionField := Some(descriptionFields[0]);
    }
    var v := GetRecordValue(AsList(descriptionField), Null, Null, Null, Str("a"));
    description := v.text;
  }

  /** The 538 note, dropped when it mentions the World Wide Web. */
  method ReadAccessNotes(fields: seq<Field>) returns (accessNotes: string)
    ensures accessNotes == AccessNotesOf(fields)
  {
    assert FilterOf(Num(538), Null, Null) == TagFilter("538") by { assert Decimal(538) == "538"; }
    var notesValue := GetRecordValue(fields, Num(538), Null, Null, Str("a"));
    accessNotes := if Contains(notesValue.text, "World Wide Web") then "" else notesValue.text;
  }

  /** The title: the 245 $a lookup, edge-trimmed. */
  method ReadName(fields: seq<Field>) returns (name: string)
    ensures name == TrimExtended(Text(fields, TagFilter("245"), "a"))
  {
    assert FilterOf(Num(245), Null, Null) == TagFilter("245") by { assert Decimal(245) == "245"; }
    var v := GetRecordValue(fields, Num(245), Null, Null, Str("a"));
    name := TrimExtended(v.text);
  }

  /** The $u lookup over the 856 fields with first indicator 4. */
  method ReadPurl(fields: seq<Field>) returns (purl: string)
    ensures purl == Text(fields, LinkFilter(None), "u")
  {
    assert FilterOf(Num(856), Num(4), Num(0)) == LinkFilter(None) by { assert Decimal(856) == "856" && Decimal(4) == "4"; }
    var v := GetRecordValue(fields, Num(856), Num(4), Num(0), Str("u"));
    purl := v.text;
  }

  /** The 740 $a lookup with second indicator 2, edge-trimmed. */
  method ReadIncludes(fields: seq<Field>) returns (includes: string)
    ensures includes == TrimExtended(Text(fields, IncludesFilter, "a"))
  {
    assert FilterOf(Num(740), Null, Num(2)) == IncludesFilter by { assert Decimal(740) == "740" && Decimal(2) == "2"; }
    var v := GetRecordValue(fields, Num(740), Null, Num(2), Str("a"));
    includes := TrimExtended(v.text);
  }

  /** The 856 part of `mapItem`: the PURL, the urls and the related resources. */
  method ReadLinks(fields: seq<Field>) returns (purl: string, urls: seq<Link>, relatedResources: seq<Link>)
    ensures purl == Text(fields, LinkFilter(None), "u")
    ensures urls == LinksOf(fields, None)
    ensures relatedResources == LinksOf(fields, Some("2"))
  {
    purl := ReadPurl(fields);
    urls := CollectLinks(fields, Num(0));
    assert Criterion(Num(2)) == Some("2") by { assert Decimal(2) == "2"; }
    relatedResources := CollectLinks(fields, Num(2));
  }

  /** `mapItem(record, systemId)` */
  method MapItem(record: Record, systemId: string) returns (s: Summary)
    ensures s == SummaryOf(record, systemId)
  {
    var docNumber := if systemId != "" then systemId else JsTrim(record.docNumber);
    var fields := record.fields;
    var name := ReadName(fields);
    var description := ReadDescription(fields);
    var purl, urls, relatedResources := ReadLinks(fields);
    var access := CollectAccess(fields);
    var accessNotes := ReadAccessNotes(fields);
    var includes := ReadIncludes(fields);
    var platform, publisher, provider := CollectRoles(fields);
    s := Summary(name, docNumber, description, purl, urls, relatedResources,
                 access, accessNotes, includes, platform, publisher, provider);
    SummaryParts(record, systemId, s);
  }

  /** A summary whose every part is the part `mapItem` computes is the summary. */
  lemma SummaryParts(record: Record, systemId: string, s: Summary)
    requires s.name == TrimExtended(Text(record.fields, TagFilter("245"), "a"))
    requires s.docNumber == DocNumberOf(record, systemId)
    requires s.description == DescriptionOf(record.fields)
    requires s.purl == Text(record.fields, LinkFilter(None), "u")
    requires s.urls == LinksOf(record.fields, None)
    requires s.relatedResources == LinksOf(record.fields, Some("2"))
    requires s.access == AccessOf(record.fields)
    requires s.accessNotes == AccessNotesOf(record.fields)
    requires s.includes == TrimExtended(Text(record.fields, IncludesFilter, "a"))
    requires Roles(s.platform, s.publisher, s.provider) == RolesOf(record.fields)
    ensures s == SummaryOf(record, systemId)
  {
  }
}
