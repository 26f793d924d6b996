/** What the summary built by `mapItem` promises about the record it reads:
    which 520 field describes the item, which 856 fields become links, the
    order and wording of the access lines, how 710 fields feed the platform,
    publisher and provider, and that no other field has any effect. */
module SummaryFacts {
  import opened Strings
  import opened FieldIndex
  import opened Helpers

  // ---------------------------------------------------------------------------
  // Description

  lemma {:induction false} FindPreferredIsFirst(ds: seq<Field>, i: nat)
    requires i < |ds| && IsPreferredDescription(ds[i])
    requires forall j :: 0 <= j < i ==> !IsPreferredDescription(ds[j])
    ensures FindPreferred(ds) == Some(ds[i])
    decreases i
  {
    if i > 0 {
      var rest := ds[1..];
      assert rest[i - 1] == ds[i];
      forall j | 0 <= j < i - 1 ensures !IsPreferredDescription(rest[j]) {
        assert rest[j] == ds[j + 1];
      }
      FindPreferredIsFirst(rest, i - 1);
    }
  }

  lemma {:induction false} FindPreferredAbsent(ds: seq<Field>)
    requires forall j :: 0 <= j < |ds| ==> !IsPreferredDescription(ds[j])
    ensures FindPreferred(ds) == None
    decreases |ds|
  {
    if ds != [] {
      var rest := ds[1..];
      forall j | 0 <= j < |rest| ensures !IsPreferredDescription(rest[j]) {
        assert rest[j] == ds[j + 1];
      }
      FindPreferredAbsent(rest);
    }
  }

  /** The description comes from the first 520 field that carries $9 "g",
      wherever it stands among the 520 fields. */
  lemma DescriptionPrefersNineG(fields: seq<Field>, i: nat)
    requires i < |Descriptions(fields)| && IsPreferredDescription(Descriptions(fields)[i])
    requires forall j :: 0 <= j < i ==> !IsPreferredDescription(Descriptions(fields)[j])
    ensures DescriptionOf(fields) == FieldText(Descriptions(fields)[i], "a")
  {
    FindPreferredIsFirst(Descriptions(fields), i);
  }

  /** Without a $9 "g" field, the first 520 field describes the item, and
      with no 520 field at all the description is empty. */
  lemma DescriptionFallsBackToFirst(fields: seq<Field>)
    requires forall j :: 0 <= j < |Descriptions(fields)| ==> !IsPreferredDescription(Descriptions(fields)[j])
    ensures DescriptionOf(fields) == if Descriptions(fields) == [] then "" else FieldText(Descriptions(fields)[0], "a")
  {
    FindPreferredAbsent(Descriptions(fields));
  }

  // ---------------------------------------------------------------------------
  // Links

  /** The url of each link, in order. */
  function Urls(links: seq<Link>): seq<string>
    decreases |links|
  {
    if links == [] then [] else Urls(links[..|links| - 1]) + [links[|links| - 1].url]
  }

  lemma {:induction false} LinkUrls(fs: seq<Field>)
    ensures Urls(LinkList(fs)) == FieldTexts(fs, "u")
    decreases |fs|
  {
    if fs != [] {
      var ls := LinkList(fs);
      assert ls[..|ls| - 1] == LinkList(fs[..|fs| - 1]);
      LinkUrls(fs[..|fs| - 1]);
    }
  }

  /** Every 856 field with first indicator 4 is listed among the urls whatever
      its second indicator; it is also a related resource exactly when that
      indicator is "2". */
  lemma LinkSelection(fields: seq<Field>, f: Field)
    requires f in fields && f.id == "856" && f.i1 == "4"
    ensures LinkOf(f) in LinksOf(fields, None)
    ensures f.i2 == "2" ==> LinkOf(f) in LinksOf(fields, Some("2"))
  {
    var all := SelectFields(fields, LinkFilter(None));
    SelectFieldsMembers(fields, LinkFilter(None), f);
    var j :| 0 <= j < |all| && all[j] == f;
    assert LinkList(all)[j] == LinkOf(f);
    if f.i2 == "2" {
      var rel := SelectFields(fields, LinkFilter(Some("2")));
      SelectFieldsMembers(fields, LinkFilter(Some("2")), f);
      var k :| 0 <= k < |rel| && rel[k] == f;
      assert LinkList(rel)[k] == LinkOf(f);
    }
  }

  /** `l` is the link of an 856 field of the record with indicators "4" and "2". */
  predicate LinkOfRelatedField(fields: seq<Field>, l: Link) {
    exists g :: g in fields && g.id == "856" && g.i1 == "4" && g.i2 == "2" && l == LinkOf(g)
  }

  /** Every related resource is the link of an 856 field of the record whose
      indicators are "4" and "2". */
  lemma RelatedResourceSources(fields: seq<Field>)
    ensures forall l :: l in LinksOf(fields, Some("2")) ==> LinkOfRelatedField(fields, l)
  {
    var rel := SelectFields(fields, LinkFilter(Some("2")));
    forall l | l in LinksOf(fields, Some("2")) ensures LinkOfRelatedField(fields, l) {
      var k :| 0 <= k < |LinkList(rel)| && LinkList(rel)[k] == l;
      var g := rel[k];
      SelectFieldsMembers(fields, LinkFilter(Some("2")), g);
      assert l == LinkOf(g);
    }
  }

  /** Every related resource is also one of the urls. */
  lemma RelatedResourcesAreUrls(fields: seq<Field>)
    ensures forall l :: l in LinksOf(fields, Some("2")) ==> l in LinksOf(fields, None)
  {
    var rel := SelectFields(fields, LinkFilter(Some("2")));
    forall l | l in LinksOf(fields, Some("2")) ensures l in LinksOf(fields, None) {
      var i :| 0 <= i < |rel| && LinkList(rel)[i] == l;
      SelectFieldsMembers(fields, LinkFilter(Some("2")), rel[i]);
      LinkSelection(fields, rel[i]);
    }
  }

  /** The purl joins the non-empty urls of the url list. */
  lemma PurlJoinsUrls(fields: seq<Field>)
    ensures Text(fields, LinkFilter(None), "u") == JoinLines(NonEmpty(Urls(LinksOf(fields, None))))
  {
    LinesArePerFieldTexts(fields, LinkFilter(None), "u");
    LinkUrls(SelectFields(fields, LinkFilter(None)));
  }

  // ---------------------------------------------------------------------------
  // Access

  /** All $f lines come first, then all $a lines, then all $c lines, each
      group in field order. */
  lemma AccessLetterOrder(fields: seq<Field>)
    ensures var d := SelectFields(fields, TagFilter("506"));
      AccessOf(fields) == JoinLines(LetterLines(d, "f") + LetterLines(d, "a") + LetterLines(d, "c"))
  {
    var d := SelectFields(fields, TagFilter("506"));
    var ls := AccessLetters;
    assert ls[..2] == ["f", "a"] && ls[..2][..1] == ["f"] && ls[..2][..1][..0] == [];
    assert AccessLines(d, ["f"]) == LetterLines(d, "f");
  }

  /** A string shorter than a pattern, or as long but different, does not contain it. */
  lemma TooShortToContain(s: string, pat: string)
    requires |s| < |pat| || (|s| == |pat| && s != pat)
    ensures !Contains(s, pat)
  {
    if |s| == |pat| {
      assert s[0..|pat|] == s;
    }
  }

  /** A string without the first character of a pattern does not contain it. */
  lemma AbsentLead(s: string, pat: string)
    requires pat != [] && pat[0] !in s
    ensures !Contains(s, pat)
  {
  }

  /** A pattern that occurs at the start of a string is found there. */
  lemma ReplaceAtStart(s: string, rep: string)
    ensures ReplaceFirst(s, s, rep) == rep
  {
    assert OccursAt(s, s, 0);
    assert s[|s|..] == [];
  }

  /** Rewriting with two tables in a row is rewriting with one after the other. */
  lemma {:induction false} RewriteConcat(v: string, a: seq<(string, string)>, b: seq<(string, string)>)
    ensures RewriteWith(v, a + b) == RewriteWith(RewriteWith(v, a), b)
    decreases |a|
  {
    if a == [] {
      assert a + b == b;
    } else {
      assert (a + b)[0] == a[0] && (a + b)[1..] == a[1..] + b;
      RewriteConcat(ReplaceFirst(v, a[0].0, a[0].1), a[1..], b);
    }
  }

  /** A value that is exactly the phrase of row `k`, and contains no earlier
      phrase nor lets its replacement contain a later one, comes out as that
      row's replacement. */
  lemma RewritePhrase(table: seq<(string, string)>, k: nat)
    requires k < |table|
    requires forall j :: 0 <= j < k ==> !Contains(table[k].0, table[j].0)
    requires forall j :: k < j < |table| ==> !Contains(table[k].1, table[j].0)
    ensures RewriteWith(table[k].0, table) == table[k].1
  {
    var v, rep := table[k].0, table[k].1;
    var before, rest, after := table[..k], table[k..], table[k + 1..];
    assert table == before + rest;
    RewriteConcat(v, before, rest);
    assert forall j :: 0 <= j < |before| ==> before[j] == table[j];
    assert rest[0] == table[k] && rest[1..] == after;
    ReplaceAtStart(v, rep);
    assert forall j :: 0 <= j < |after| ==> after[j] == table[k + 1 + j];
  }

  lemma SubscriptionMissesEarlierPhrases()
    ensures forall j :: 0 <= j < 3 ==> !Contains(AccessRewrites[3].0, AccessRewrites[j].0)
  {
    var v := "Subscription required for access";
    TooShortToContain(v, "Online access with authorization");
    TooShortToContain(v, "Access restricted to subscribers");
    TooShortToContain(v, "Restricted to subscribing institutions");
  }

  lemma AudienceMissesLaterPhrases()
    ensures forall j :: 3 < j < |AccessRewrites| ==> !Contains(NotreDameUsers, AccessRewrites[j].0)
  {
    var t := AccessRewrites;
    assert t[4].0 == "Restricted to users with valid Notre Dame NetIDs" && t[5].0 == "Unrestricted online access";
    TooShortToContain(NotreDameUsers, t[4].0);
    assert 'U' !in NotreDameUsers by {
      forall i | 0 <= i < |NotreDameUsers| ensures NotreDameUsers[i] != 'U' { }
    }
    AbsentLead(NotreDameUsers, t[5].0);
  }

  /** A subscription notice is shown as the Notre Dame audience. */
  lemma SubscriptionRewrite()
    ensures RewriteWith("Subscription required for access", AccessRewrites) == NotreDameUsers
  {
    SubscriptionMissesEarlierPhrases();
    AudienceMissesLaterPhrases();
    RewritePhrase(AccessRewrites, 3);
  }

  lemma UnrestrictedMissesEarlierPhrases()
    ensures forall j :: 0 <= j < 5 ==> !Contains(AccessRewrites[5].0, AccessRewrites[j].0)
  {
    var v := "Unrestricted online access";
    TooShortToContain(v, "Online access with authorization");
    TooShortToContain(v, "Access restricted to subscribers");
    TooShortToContain(v, "Restricted to subscribing institutions");
    TooShortToContain(v, "Subscription required for access");
    TooShortToContain(v, "Restricted to users with valid Notre Dame NetIDs");
  }

  /** Unrestricted access is shown as "Public". */
  lemma UnrestrictedRewrite()
    ensures RewriteWith("Unrestricted online access", AccessRewrites) == "Public"
  {
    UnrestrictedMissesEarlierPhrases();
    RewritePhrase(AccessRewrites, 5);
  }

  predicate IsLetter(c: char) {
    'A' <= c <= 'Z' || 'a' <= c <= 'z'
  }

  /** A value that starts and ends with a letter is left alone by both trims. */
  lemma TrimsKeep(v: string)
    requires v != [] && IsLetter(v[0]) && IsLetter(v[|v| - 1])
    ensures JsTrim(v) == v && TrimExtended(v) == v
  {
    var first, last := v[0], v[|v| - 1];
    assert !IsJsSpace(first) && !IsJsSpace(last) && !IsEdgeChar(first) && !IsEdgeChar(last);
    StripKeeps(v, IsJsSpace);
    StripKeeps(v, IsEdgeChar);
  }

  /** The access lines of a single 506 field. */
  lemma LetterLinesOfOne(f: Field, letter: string)
    ensures var v := AccessValue(f, letter);
      LetterLines([f], letter) == if v != "" then [v] else []
  {
    LetterLinesSnoc([], f, letter);
    assert [] + [f] == [f];
  }

  /** The subfields of a 506 field listing unrestricted access in $a and a
      subscription notice in $f. */
  const MixedAccessSubfields := [Subfield("a", "Unrestricted online access"),
                                 Subfield("f", "Subscription required for access")]

  lemma MixedAccessF(f: Field)
    requires f.subfields == MixedAccessSubfields
    ensures AccessValue(f, "f") == NotreDameUsers
  {
    assert FirstIndexOf(f.subfields, "f") == 1;
    FieldTextIsFirstValue(f, "f");
    TrimsKeep("Subscription required for access");
    SubscriptionRewrite();
  }

  lemma MixedAccessA(f: Field)
    requires f.subfields == MixedAccessSubfields
    ensures AccessValue(f, "a") == "Public"
  {
    assert FirstIndexOf(f.subfields, "a") == 0;
    FieldTextIsFirstValue(f, "a");
    TrimsKeep("Unrestricted online access");
    UnrestrictedRewrite();
  }

  lemma MixedAccessC(f: Field)
    requires f.subfields == MixedAccessSubfields
    ensures AccessValue(f, "c") == ""
  {
    assert FirstIndexOf(f.subfields, "c") == 2;
    FieldTextIsFirstValue(f, "c");
  }

  /** The access text of a record with a single 506 field. */
  lemma AccessOfOne(f: Field)
    requires f.id == "506"
    ensures AccessOf([f]) == JoinLines(LetterLines([f], "f") + LetterLines([f], "a") + LetterLines([f], "c"))
  {
    assert SelectFields([f], TagFilter("506")) == [f];
    AccessLetterOrder([f]);
  }

  lemma MixedAccessLines(f: Field)
    requires f.subfields == MixedAccessSubfields
    ensures LetterLines([f], "f") + LetterLines([f], "a") + LetterLines([f], "c") == [NotreDameUsers, "Public"]
  {
    assert LetterLines([f], "f") == [NotreDameUsers] by { MixedAccessF(f); LetterLinesOfOne(f, "f"); }
    assert LetterLines([f], "a") == ["Public"] by { MixedAccessA(f); LetterLinesOfOne(f, "a"); }
    assert LetterLines([f], "c") == [] by { MixedAccessC(f); LetterLinesOfOne(f, "c"); }
    PairConcat(NotreDameUsers, "Public");
  }

  /** The $f line comes first although $a precedes $f in the field: the
      letter order wins over the order of the subfields. */
  lemma AccessExample(f: Field)
    requires f.id == "506" && f.subfields == MixedAccessSubfields
    ensures AccessOf([f]) == NotreDameUsers + "\n" + "Public"
  {
    AccessOfOne(f);
    MixedAccessLines(f);
    JoinTwo(NotreDameUsers, "Public");
  }

  lemma PairConcat<T>(a: T, b: T)
    ensures [a] + [b] + [] == [a, b]
  {
  }

  lemma JoinTwo(a: string, b: string)
    ensures JoinLines([a, b]) == a + "\n" + b
  {
    assert [a, b][..1] == [a];
  }

  /** The access notes never mention the World Wide Web: a 538 $a lookup that
      does is dropped, and one that does not is kept unchanged. */
  lemma AccessNotesFilter(fields: seq<Field>)
    ensures !Contains(AccessNotesOf(fields), "World Wide Web")
    ensures var t := Text(fields, TagFilter("538"), "a");
      AccessNotesOf(fields) == "" <==> t == "" || Contains(t, "World Wide Web")
    ensures var t := Text(fields, TagFilter("538"), "a");
      !Contains(t, "World Wide Web") ==> AccessNotesOf(fields) == t
  {
    TooShortToContain("", "World Wide Web");
  }

  // ---------------------------------------------------------------------------
  // Platform, publisher, provider

  /** A field added at the end of the record changes the roles only when it is
      a 710 field with second indicator " ", and then only the slot its $4
      code names, by appending its $a value on a new line. */
  lemma RolesAppendField(fields: seq<Field>, f: Field)
    ensures RolesOf(fields + [f])
         == if Matches(f, RoleFilter) then RouteRole(RolesOf(fields), FieldText(f, "4"), FieldText(f, "a"))
            else RolesOf(fields)
  {
    SelectFieldsConcat(fields, [f], RoleFilter);
    assert [f][1..] == [];
    if Matches(f, RoleFilter) {
      assert SelectFields([f], RoleFilter) == [f];
      RolesFromSnoc(RoleFields(fields), f);
    } else {
      assert SelectFields([f], RoleFilter) == [];
      assert RoleFields(fields) + [] == RoleFields(fields);
    }
  }

  // ---------------------------------------------------------------------------
  // The whole summary

  /** The tags the mapper reads. */
  predicate IsReadTag(tag: string) {
    tag in ["245", "520", "856", "506", "538", "740", "710"]
  }

  lemma SelectIgnoresOtherTag(fields: seq<Field>, f: Field, flt: Filter)
    requires flt.id.Some? && flt.id.value != f.id
    ensures SelectFields(fields + [f], flt) == SelectFields(fields, flt)
  {
    SelectFieldsConcat(fields, [f], flt);
    assert [f][1..] == [];
    assert SelectFields([f], flt) == [];
    assert SelectFields(fields, flt) + [] == SelectFields(fields, flt);
  }

  /** Appending a field whose tag the mapper does not read changes nothing in the summary. */
  lemma SummaryIgnoresOtherTags(record: Record, f: Field, systemId: string)
    requires !IsReadTag(f.id)
    ensures SummaryOf(Record(record.docNumber, record.fields + [f]), systemId) == SummaryOf(record, systemId)
  {
    var fields := record.fields;
    var more := fields + [f];
    var s0 := SummaryOf(record, systemId);
    var s1 := SummaryOf(Record(record.docNumber, more), systemId);
    assert s1.name == s0.name by { SelectIgnoresOtherTag(fields, f, TagFilter("245")); }
    assert s1.description == s0.description by { SelectIgnoresOtherTag(fields, f, TagFilter("520")); }
    assert s1.purl == s0.purl && s1.urls == s0.urls by { SelectIgnoresOtherTag(fields, f, LinkFilter(None)); }
    assert s1.relatedResources == s0.relatedResources by { SelectIgnoresOtherTag(fields, f, LinkFilter(Some("2"))); }
    assert s1.access == s0.access by { SelectIgnoresOtherTag(fields, f, TagFilter("506")); }
    assert s1.accessNotes == s0.accessNotes by { SelectIgnoresOtherTag(fields, f, TagFilter("538")); }
    assert s1.includes == s0.includes by { SelectIgnoresOtherTag(fields, f, IncludesFilter); }
    assert RolesOf(more) == RolesOf(fields) by { SelectIgnoresOtherTag(fields, f, RoleFilter); }
  }
}
