# aleph-gateway core, modelled in Dafny

This project models the record-processing core of a Lambda gateway to an
Aleph library catalog. The core works on a catalog record that has already
been parsed. A record is an ordered list of variable fields. Each field has a
tag (`id`), two indicators (`i1`, `i2`) and an ordered list of labelled
subfields. The modelled parts are:

- **Field lookup** (`getRecordValue`, module `FieldIndex`). It keeps the fields
  whose tag and indicators pass the given criteria. A falsy criterion (`null`,
  `0`, `''`) does not filter. The lookup then returns the matching fields, or,
  given a subfield label, the `\n`-join of the trimmed, non-empty value of
  the first subfield with that label in each matching field.
- **Bibliographic summary** (`trimExtended`, `mapItem`, module `Helpers`).
  It builds the title, description, PURL, link lists, access text, access
  notes, includes, platform, publisher and provider of a record. The
  properties of the summary are proved in module `SummaryFacts`.
- **Loan view** (`mapLoanItems`, module `Loans`). It reshapes
  interlibrary-loan requests into loan or photocopy views.
- **Year range and entry selection** (`startEndYears`, the handler's
  `isValidEntry` loop and the find request, module `Query`).
  - Years come from the 866 $a holdings statements, read with the two regular
    expressions of the source.
  - A current-receipt note in an 852 field opens the range to 9999.
  - A record is kept for an article query with a year when the year lies in
    its range.
- **JavaScript string operations** (module `Strings`): `trim`, edge
  stripping, `indexOf`/`includes`, first-occurrence `replace`,
  `split(c)[0]`, `join('\n')` and number/decimal conversion, over
  `seq<char>`.

Each loop of the source is a `method` with a `for` or `while` loop. Each such
method is proved equal to a specification function: `GetRecordValue`,
`CollectLinks`, `CollectAccess`, `CollectRoles`, `MapItem`, `FoldYears`,
`ScanHoldings`, `ScanReceipt`, `StartEndYears` and `SelectEntries`. Lemmas
then state what those functions promise. Pure code (`trimExtended`,
`mapLoanItems`, the request string) is a function with lemmas beside it.

Where the source throws, the model returns `None`. This happens when
`value.match(noParensRegex)` yields null and `[1]` is read from it. The
failure propagates through `StartEndYears`, `ValidEntry` and
`SelectEntries`, just as the exception leaves the handler's `forEach`.

### Where the code differs from its description

The model follows the code in each of these cases.

- `trimExtended` uses the class `[\\. ]`, which also removes backslashes, not
  only periods and spaces (`Helpers.IsEdgeChar`).
- The no-parenthesis pattern `[\\A/-]([\d]{4})` is a literal character class:
  backslash, the letter `A`, slash or dash. It is not a start-of-string anchor.
  - A bare span "1995-2004" yields only 2004 (`Query.HoldingSpanExample`).
  - A lone "1995" has no match at all. The source then throws on `null[1]`
    instead of skipping the value (`Query.HoldingLoneYearExample`,
    `Query.RecordYearsFail`).
- The parenthesis pattern `\(([\d]{4}).*?\)` needs the four digits right after
  `(`. Its lazy `.*?` stops at the first `)` and cannot cross a line
  terminator; the model reproduces both (`Query.CloseFrom`).
- The PURL and url lookups pass the number `0` as second indicator. `0` is
  falsy, so they match every 856 field with first indicator 4. A field with
  second indicator 2 is therefore both a url and a related resource
  (`Helpers.LinkCallSiteFilters`, `SummaryFacts.RelatedResourcesAreUrls`).
- Platform, publisher and provider are built with the accumulation idiom
  `(acc ? acc + '\n' : '') + value`, which does not skip empty values. They
  are modelled with that idiom (`Strings.Append`), not as a join of non-empty
  values.
- A current-receipt note sets `end` to 9999. Later holdings years cannot move
  it, because no year exceeds 9999 (`Query.MaxFromCapped`).

## Model

| member | source | states |
|---|---|---|
| Strings.JsTrim | src/shared/helpers.js:224 | `String.prototype.trim`: the result neither starts nor ends with an ECMAScript whitespace or line-terminator character |
| Strings.StripIsSlice | src/shared/helpers.js:196-200 | an edge strip returns exactly the piece of the input between its leading and trailing runs of droppable characters, so the interior is untouched |
| Strings.StripIdempotent | src/shared/helpers.js:196-200 | stripping the edges twice gives the same result as stripping once |
| Strings.IndexOfFrom | src/shared/helpers.js:97 | `indexOf` finds the leftmost occurrence at or after the start position, or reports that there is none |
| Strings.ReplaceFirstEmptiness | src/shared/helpers.js:82-87 | a first-occurrence replace with a non-empty pattern and a non-empty replacement leaves a string empty exactly when it was empty |
| Strings.ReplaceFirst | src/shared/helpers.js:82-87 | `replace` with a string pattern leaves a string without the pattern unchanged, and otherwise replaces the leftmost occurrence, and only it |
| Strings.BeforeFirst | src/shared/helpers.js:127 | `split(c)[0]` is a prefix without `c`, followed in the input by `c` whenever it is shorter than the input |
| Strings.BeforeFirstPrefix | src/query.js:163 | on `d + c + rest` with no `c` in `d`, `split(c)[0]` is `d` |
| Strings.BeforeFirstWithout | src/query.js:163 | without the separator, `split(c)[0]` is the whole string |
| Strings.AppendAllJoins | src/shared/helpers.js:90 | accumulating non-empty values with `(acc ? acc + '\n' : '') + v` equals joining them with `\n`, and the result is empty only when there is nothing to join |
| Strings.JoinLinesSnoc | src/shared/helpers.js:90 | joining one more non-empty value appends it after a `\n` |
| Strings.NonEmptyConcat | src/shared/helpers.js:224 | `filter(value => value)` distributes over concatenation, so it keeps order |
| Strings.MapSeqConcat | src/shared/helpers.js:224 | `map` distributes over concatenation |
| Strings.DecimalRoundTrip | src/shared/helpers.js:206-208 | reading back the decimal numeral of `n.toString()` gives `n`, and the numeral is all digits |
| FieldIndex.Criterion | src/shared/helpers.js:206-208 | a criterion is "don't care" exactly when the argument is falsy; otherwise it is the argument's `toString()` |
| FieldIndex.ZeroIsWildcard | src/shared/helpers.js:206-208 | `0`, `null` and `''` match every attribute value, while the string "0" matches only "0" |
| FieldIndex.NumberCriterion | src/shared/helpers.js:206-208 | a non-zero number criterion accepts exactly its decimal numeral, which reads back as that number |
| FieldIndex.SelectFields | src/shared/helpers.js:203-210 | the `filter` keeps only fields that pass all three criteria, and never more fields than the record has |
| FieldIndex.SelectFieldsMembers | src/shared/helpers.js:203-210 | a field is selected exactly when it is in the record and passes all three criteria |
| FieldIndex.SelectFieldsConcat | src/shared/helpers.js:203-210 | the selection over `a + b` is the selection over `a` followed by that over `b`: record order is kept |
| FieldIndex.FirstIndexOf | src/shared/helpers.js:217-219 | `find` returns the first subfield with the label: no earlier subfield has it |
| FieldIndex.GetRecordValue | src/shared/helpers.js:202-226 | without a subfield label the result is the list of matching fields; with one it is the joined text of the lookup |
| FieldIndex.ReadFieldText | src/shared/helpers.js:58-60 | a lookup inside one field with no criteria gives that field's one-field text |
| FieldIndex.LinesOfOneField | src/shared/helpers.js:215-224 | one field contributes at most one line: the trimmed value of its first subfield with the label, when the field matches and that value is not blank |
| FieldIndex.FieldTextIsFirstValue | src/shared/helpers.js:217-224 | a one-field lookup is the trimmed value of the first subfield with the label, or "" when there is none |
| FieldIndex.TrimmedValuesClean | src/shared/helpers.js:224 | every value that survives the trim and filter is non-empty and already trimmed |
| FieldIndex.LinesConcat | src/shared/helpers.js:215-225 | the lines of a lookup over `a + b` are those over `a` followed by those over `b` |
| FieldIndex.Lines | src/shared/helpers.js:215-224 | every value a subfield lookup joins is non-empty and already trimmed |
| FieldIndex.Text | src/shared/helpers.js:215-225 | the string a subfield lookup returns, the `\n`-join of those values, neither starts nor ends with whitespace |
| FieldIndex.LinesArePerFieldTexts | src/shared/helpers.js:215-225 | a lookup over many fields is the non-blank one-field lookups of the matching fields, in record order |
| Helpers.TrimExtended | src/shared/helpers.js:196-200 | the result is no longer than the input and neither starts nor ends with a period, space or backslash |
| Helpers.TrimExtendedKeepsInterior | src/shared/helpers.js:196-200 | only the leading and trailing runs of edge characters are removed; the piece between them is returned unchanged |
| Helpers.TrimExtendedIdempotent | src/shared/helpers.js:196-200 | applying `trimExtended` twice gives the same result as applying it once |
| Helpers.FindPreferred | src/shared/helpers.js:41-45 | a field the `find` returns is one of the 520 fields and carries $9 "g" |
| Helpers.ChooseDescription | src/shared/helpers.js:41-49 | a 520 field is chosen exactly when there is one; it is one of them, and it is the first one unless it carries $9 "g" |
| Helpers.LinkCallSiteFilters | src/shared/helpers.js:52-67 | the 856 lookups with second indicator `0` do not filter on that indicator; those with `2` keep only indicator "2" |
| Helpers.LinkList | src/shared/helpers.js:56-62 | one link per selected field, in order, each built from that field's $u, $3 and $z |
| Helpers.ReadLink | src/shared/helpers.js:57-61 | the link read from one field carries its $u url, $3 title and $z notes |
| Helpers.CollectLinks | src/shared/helpers.js:55-74 | the `forEach` pushes exactly the links of the selected 856 fields, in order |
| Helpers.RewriteWith | src/shared/helpers.js:82-87 | a value containing none of the phrases passes through the chain of replaces unchanged |
| Helpers.RewriteKeepsBlankness | src/shared/helpers.js:82-87 | a chain of replaces with non-empty phrases and replacements never blanks a value nor fills a blank one |
| Helpers.AccessValue | src/shared/helpers.js:81-87 | an access value is blank exactly when the edge-trimmed subfield is blank, so a field contributes a line for a letter exactly then |
| Helpers.ReadAccessValue | src/shared/helpers.js:81-87 | one access value is the edge-trimmed subfield passed through the rewrite table |
| Helpers.LetterLines | src/shared/helpers.js:89-91 | the access lines of one letter are never empty |
| Helpers.AppendLetterLines | src/shared/helpers.js:80-92 | the inner loop appends each non-empty access value of one letter, in field order, to the text accumulated so far |
| Helpers.CollectAccess | src/shared/helpers.js:77-93 | the nested loops produce the access text of the record |
| Helpers.ReadRole | src/shared/helpers.js:104-105 | the role code (asked for by the number 4) and the value of a 710 field are its $4 and $a lookups |
| Helpers.AccessNotesOf | src/shared/helpers.js:96-97 | the access notes never contain "World Wide Web" |
| Helpers.RouteRole | src/shared/helpers.js:107-113 | the code "pltfrm", "pbl" or "prv" appends the value to its own slot only; any other code changes nothing |
| Helpers.DocNumberOf | src/shared/helpers.js:8-117 | the given system id wins; otherwise the document number is read without surrounding whitespace |
| Helpers.SummaryOf | src/shared/helpers.js:8-117 | the summary of a record: a given system id is its document number, and its access notes never contain "World Wide Web" |
| Helpers.RolesFromSnoc | src/shared/helpers.js:107-113 | one more 710 field appends its $a value to the slot its $4 code names and leaves the other slots alone |
| Helpers.CollectRoles | src/shared/helpers.js:103-114 | the 710 loop produces the platform, publisher and provider of the record |
| Helpers.ReadDescription | src/shared/helpers.js:39-51 | the description is the $a lookup of the chosen 520 field |
| Helpers.ReadAccessNotes | src/shared/helpers.js:96-97 | the access notes are the 538 $a lookup, blanked when it contains "World Wide Web" |
| Helpers.ReadName | src/shared/helpers.js:37 | the name is the edge-trimmed 245 $a lookup |
| Helpers.ReadPurl | src/shared/helpers.js:52 | the PURL is the $u lookup over the 856 fields with first indicator 4 |
| Helpers.ReadIncludes | src/shared/helpers.js:100 | the includes text is the edge-trimmed 740 $a lookup with second indicator 2 |
| Helpers.ReadLinks | src/shared/helpers.js:52-74 | the PURL, the urls and the related resources of the record |
| Helpers.MapItem | src/shared/helpers.js:8-117 | the summary built field by field is the summary of the record, with the given system id preferred over the trimmed document number |
| SummaryFacts.DescriptionPrefersNineG | src/shared/helpers.js:39-45 | the description comes from the first 520 field with a $9 subfield whose value is exactly "g", wherever it stands |
| SummaryFacts.DescriptionFallsBackToFirst | src/shared/helpers.js:46-51 | without such a field the first 520 field is used, and with no 520 field the description is empty |
| SummaryFacts.LinkSelection | src/shared/helpers.js:52-74 | every 856 field with first indicator 4 gives a url whatever its second indicator, and also a related resource when that indicator is "2" |
| SummaryFacts.RelatedResourceSources | src/shared/helpers.js:66-74 | conversely, every related resource is the link of an 856 field of the record with indicators "4" and "2" |
| SummaryFacts.RelatedResourcesAreUrls | src/shared/helpers.js:56-74 | every related resource is also one of the urls |
| SummaryFacts.PurlJoinsUrls | src/shared/helpers.js:52-63 | the PURL is the `\n`-join of the non-empty urls of the url list |
| SummaryFacts.AccessLetterOrder | src/shared/helpers.js:77-93 | the access text joins all $f lines, then all $a lines, then all $c lines, each group in 506 field order |
| SummaryFacts.RewriteConcat | src/shared/helpers.js:82-87 | rewriting with two tables in a row is rewriting with the first, then the second |
| SummaryFacts.RewritePhrase | src/shared/helpers.js:82-87 | a value equal to one row's phrase comes out as that row's replacement, when no earlier phrase occurs in it and no later phrase occurs in the replacement |
| SummaryFacts.SubscriptionRewrite | src/shared/helpers.js:85 | "Subscription required for access" is shown as the Notre Dame audience |
| SummaryFacts.UnrestrictedRewrite | src/shared/helpers.js:87 | "Unrestricted online access" is shown as "Public" |
| SummaryFacts.AccessExample | src/shared/helpers.js:77-93 | a 506 field with $a "Unrestricted online access" before $f "Subscription required for access" gives the Notre Dame line first, then "Public": letter order wins over subfield order |
| SummaryFacts.AccessNotesFilter | src/shared/helpers.js:96-97 | the access notes never contain "World Wide Web"; they are empty exactly when the 538 $a lookup is empty or contains that phrase, and otherwise they are the lookup unchanged |
| SummaryFacts.RolesAppendField | src/shared/helpers.js:103-114 | a field added at the end changes the roles only if it is a 710 field with second indicator " ", and then only the slot its $4 code names |
| SummaryFacts.SummaryIgnoresOtherTags | src/shared/helpers.js:8-117 | appending a field whose tag `mapItem` does not read leaves the whole summary unchanged |
| Loans.MapLoanItems | src/shared/helpers.js:123-169 | one view per request, in the same order, each the view of that request |
| Loans.MapLoanItem | src/shared/helpers.js:124-168 | a view is a loan exactly when the request type is "Loan", and its due date is the due day of the request |
| Loans.LoanOrPhoto | src/shared/helpers.js:124-165 | a view is a loan exactly when the request type is "Loan". A loan takes the loan title, author, edition, publisher, place and date, with all five journal fields blank; a photocopy takes the article title and author, the item edition, publisher, place and date, and the journal title, volume, issue, month and year. The due day, status, transaction number and date, creation date, call number, issn, ILL number and document type are set either way |
| Loans.DueDay | src/shared/helpers.js:127 | the due day is the longest prefix of the due date without a 'T': it has no 'T', and a 'T' follows it in the due date whenever it is shorter |
| Loans.DueDayIdempotent | src/shared/helpers.js:127 | taking the date part twice gives the same result as taking it once |
| Loans.DueDayOfTimestamp | src/shared/helpers.js:127 | a timestamp `d` + "T" + `rest` with no 'T' in `d` has due day `d` |
| Loans.DueDayExample | src/shared/helpers.js:127 | "2017-06-28T00:00:00" has due day "2017-06-28" |
| Query.CloseFrom | src/query.js:123 | the lazy `.*?\)` stops at the first ')' and fails if a line terminator comes first |
| Query.ParenMatchAt | src/query.js:123 | a parenthesis match exists at a position exactly when a '(' and four digits stand there and the lazy `.*?\)` after them reaches a ')'; the match ends right after the first such ')' |
| Query.ParenYears | src/query.js:152-158 | each match of the global scan takes at least six characters, so there are at most a sixth as many years as characters scanned |
| Query.LeadMatch | src/query.js:127 | the no-parenthesis pattern matches at the leftmost backslash, 'A', '/' or '-' followed by four digits, or nowhere |
| Query.LeadYear | src/query.js:163-164 | the no-parenthesis pattern fails exactly when no lead character has four digits after it; otherwise the year is those four digits at the leftmost such lead character |
| Query.HoldingYears | src/query.js:149-167 | a value with '(' always yields its parenthesised years, each read right after a '('; one without '(' yields exactly one year, or throws exactly when the text before its first '=' has no lead character with four digits after it |
| Query.ParenYearsSound | src/query.js:151-158 | every year the global scan reports is the four digits right after an opening parenthesis |
| Query.ParenYearsShift | src/query.js:152 | the scan only looks ahead: the years found in the tail of a text are those of the tail on its own |
| Query.ParenGroup | src/query.js:151-158 | after text without '(', a group `(dddd…)` reports its four digits and the scan resumes after its first ')' |
| Query.HoldingVolumesExample | src/query.js:151-159 | "v.16(1994/1995)-v.19(2001/2002)" yields the years 1994 and 2001 |
| Query.LeadAfter | src/query.js:164 | after text without any lead character, the first lead character with four digits gives the year |
| Query.HoldingSpanExample | src/query.js:160-167 | "1995-2004" yields only 2004: the leading year has no lead character |
| Query.HoldingEqualsExample | src/query.js:160-167 | "2005:stycz.-2005:luty=2485-2492" yields 2005; the text after '=' is ignored |
| Query.HoldingLoneYearExample | src/query.js:164 | "1995" has no match, so reading the year throws |
| Query.MinFrom | src/query.js:156 | the `Math.min` fold is at most its start and every year, and is the start or one of the years |
| Query.MaxFrom | src/query.js:157 | the `Math.max` fold is at least its start and every year, and is the start or one of the years |
| Query.FoldYears | src/query.js:154-158 | the `dates.forEach` fold ends with the min and max of the years and the running values |
| Query.MinFromConcat | src/query.js:156 | folding a list in two parts is folding it whole |
| Query.MaxFromCapped | src/query.js:140 | once the end is 9999, no holdings year moves it |
| Query.ScanHoldings | src/query.js:144-170 | the 866 loop folds the years of each $a value into the range, or throws exactly when the years of one of them cannot be read |
| Query.ScanReceipt | src/query.js:134-143 | the 852 loop sets the end to 9999 exactly when a $z is "Currently received" |
| Query.StartEndYears | src/query.js:97-178 | the loop over the fields computes the year range of the record, or throws where the source throws |
| Query.YearRangeOf | src/query.js:97-178 | the range throws exactly when the years cannot be read; both ends lie between 0 and 9999, and the start exceeds the end only for a record with no holdings years and no current receipt |
| Query.RangeBounds | src/query.js:97-178 | the range holds every holdings year, starts at the earliest (9999 if none) and ends at the latest (0 if none), or at 9999 whenever a current-receipt note is present |
| Query.RangeIgnoresOtherTags | src/query.js:133-171 | appending a field other than 852 and 866 does not move the range |
| Query.SubfieldYearsFail | src/query.js:145-169 | one field's years cannot be read exactly when one of its $a values makes the reading throw |
| Query.FieldYearsFail | src/query.js:144-170 | a field throws exactly when it is an 866 field with such an $a value |
| Query.RecordYearsFail | src/query.js:129-172 | the range computation throws exactly when one 866 field has an $a value that makes the reading throw |
| Query.Keep | src/query.js:74-82 | deciding one record throws exactly when the year is checked and its range throws; under a year check a record is kept only for a numeric year between 0 and 9999 |
| Query.KeptRecords | src/query.js:69-88 | the selection throws only under a year check, and never holds more records than it was given |
| Query.ValidEntry | src/query.js:73-82 | a record is valid for a book query or a query without a year; under a year and issn it is valid exactly when the year lies in the range |
| Query.SelectEntries | src/query.js:69-88 | the loop collects the summaries of the valid entries in record order, or throws where the range computation throws |
| Query.KeptWithoutYearCheck | src/query.js:74 | without a year check, a query with an isbn or without a year keeps every record, and an article query with a year but no issn keeps none |
| Query.KeptFails | src/query.js:78-82 | the selection throws exactly when the year is checked and some record's range computation throws |
| Query.KeptMembers | src/query.js:69-88 | the selection holds exactly the records that are valid entries, and no more entries than records |
| Query.KeepByEvidence | src/query.js:78-82 | under a numeric year check, a record is kept exactly when two things hold. First, some holdings year is not after the year, or the year is at least 9999. Second, some holdings year is not before the year, or a current receipt is present and the year is at most 9999, or the year is at most 0. So a record with no evidence is kept for no year between 1 and 9998 |
| Query.NaNYearKeepsNothing | src/query.js:81 | a year that does not read as a number keeps no record under a year check |
| Query.SearchRequest | src/query.js:14-19 | the request is refused exactly when there is no isbn and no issn; otherwise it starts with "020=" for an isbn or "022=" for an issn and ends with the clause excluding electronic resources |
| Query.SearchRequestRoundTrip | src/query.js:14-19 | the request is refused exactly when there is no isbn and no issn; otherwise it names field 020 with the isbn, or field 022 with the issn, and can be split back into that code and term |

## Left out

- The HTTP side of the handler is not modelled: the network fetches, the XML
  parsing, the environment variables, the Sentry wrapper and the status codes
  other than 400 (src/query.js:8-68 and 90-94). The find request is modelled
  as a string, and the present response as its list of records.
- `isAuthorized` (src/shared/helpers.js:172-194) is not modelled. It reads
  the environment and answers through a callback.
- typy's safe navigation is replaced by typed values. A record is a document
  number and a list of fields. A subfield without text has the value "".
  Non-array inputs are not modelled. In a loan request, an absent property is
  the empty string rather than `undefined`.
- The `year` query parameter is a string in the source and is compared with
  numbers. The model has three cases: absent or empty, an integer, or a value
  that compares as NaN. A fractional year is not modelled.
- The lookup arguments are modelled as `null`, a non-negative number literal
  or a string, which are the kinds the call sites pass. Negative or
  fractional numbers are not.
- `mapItem` fills a mutable output object field by field. The model builds
  the summary from local values. The order in which the fields are assigned
  cannot be observed and is not kept.
- The `validEntries` array check (src/query.js:90-92) always passes and is not
  modelled.
- JavaScript's `replace` treats `$` patterns in the replacement string
  specially. None of the replacements used contains `$`, so this is not
  modelled.
