/** `mapLoanItems` in src/shared/helpers.js: reshapes interlibrary-loan
    requests into the view the gateway returns, one view per request, in order. */
module Loans {
  import opened Strings

  /** The request properties `mapLoanItems` reads. An absent property is the
      empty string here. */
  datatype LoanRequest = LoanRequest(
    requestType: string,
    dueDate: string,
    transactionStatus: string,
    transactionNumber: string,
    transactionDate: string,
    creationDate: string,
    callNumber: string,
    issn: string,
    illNumber: string,
    documentType: string,
    loanTitle: string,
    loanAuthor: string,
    loanEdition: string,
    loanPublisher: string,
    loanPlace: string,
    loanDate: string,
    photoArticleTitle: string,
    photoArticleAuthor: string,
    photoItemEdition: string,
    photoItemPublisher: string,
    photoItemPlace: string,
    photoItemDate: string,
    photoJournalTitle: string,
    photoJournalVolume: string,
    photoJournalIssue: string,
    photoJournalMonth: string,
    photoJournalYear: string)

  /** The `type` of a view: 'loan' or 'photo'. */
  datatype Kind = Loan | Photo

  datatype LoanView = LoanView(
    kind: Kind,
    dueDate: string,
    status: string,
    transactionNumber: string,
    transactionDate: string,
    creationDate: string,
    callNumber: string,
    issn: string,
    illNumber: string,
    documentType: string,
    title: string,
    author: string,
    edition: string,
    publisher: string,
    placeOfPublication: string,
    publicationDate: string,
    journalTitle: string,
    journalVolume: string,
    journalIssue: string,
    journalMonth: string,
    journalYear: string)

  /** Only the exact request type "Loan" is a loan; anything else is a photocopy. */
  function KindOf(requestType: string): Kind {
    if requestType == "Loan" then Loan else Photo
  }

  /** `DueDate ? DueDate.split('T')[0] : ''`: the date part of an ISO timestamp. */
  function DueDay(dueDate: string): (r: string)
    ensures |r| <= |dueDate| && r == dueDate[..|r|] && 'T' !in r
    ensures |r| < |dueDate| ==> dueDate[|r|] == 'T'
  {
    if dueDate == "" then "" else BeforeFirst(dueDate, 'T')
  }

  /** The view of one request: a loan exactly for the request type "Loan",
      with the date part of the due date. */
  function MapLoanItem(item: LoanRequest): (v: LoanView)
    ensures v.kind == Loan <==> item.requestType == "Loan"
    ensures v.dueDate == DueDay(item.dueDate)
  {
    var kind := KindOf(item.requestType);
    var common := LoanView(kind, DueDay(item.dueDate), item.transactionStatus, item.transactionNumber,
                           item.transactionDate, item.creationDate, item.callNumber, item.issn,
                           item.illNumber, item.documentType,
                           "", "", "", "", "", "", "", "", "", "", "");
    match kind
    case Loan =>
      common.(title := item.loanTitle, author := item.loanAuthor, edition := item.loanEdition,
              publisher := item.loanPublisher, placeOfPublication := item.loanPlace,
              publicationDate := item.loanDate)
    case Photo =>
      common.(title := item.photoArticleTitle, author := item.photoArticleAuthor,
              edition := item.photoItemEdition, publisher := item.photoItemPublisher,
              placeOfPublication := item.photoItemPlace, publicationDate := item.photoItemDate,
              journalTitle := item.photoJournalTitle, journalVolume := item.photoJournalVolume,
              journalIssue := item.photoJournalIssue, journalMonth := item.photoJournalMonth,
              journalYear := item.photoJournalYear)
  }

  /** `items.map(...)`: one view per request, in the same order. */
  function MapLoanItems(items: seq<LoanRequest>): (views: seq<LoanView>)
    ensures |views| == |items|
    ensures forall i :: 0 <= i < |items| ==> views[i] == MapLoanItem(items[i])
    decreases |items|
  {
    if items == [] then [] else MapLoanItems(items[..|items| - 1]) + [MapLoanItem(items[|items| - 1])]
  }

  /** A view is a loan exactly when the request type is "Loan"; a loan view
      takes the loan descriptors and blank journal fields, a photocopy view the
      article, item and journal descriptors. The due day and the transaction
      fields are copied either way. */
  lemma LoanOrPhoto(item: LoanRequest)
    ensures var v := MapLoanItem(item);
      (v.kind == Loan <==> item.requestType == "Loan")
      && (v.kind == Loan ==>
            v.title == item.loanTitle && v.author == item.loanAuthor
            && v.edition == item.loanEdition && v.publisher == item.loanPublisher
            && v.placeOfPublication == item.loanPlace && v.publicationDate == item.loanDate
            && v.journalTitle == "" && v.journalVolume == "" && v.journalIssue == ""
            && v.journalMonth == "" && v.journalYear == "")
      && (v.kind == Photo ==>
            v.title == item.photoArticleTitle && v.author == item.photoArticleAuthor
            && v.edition == item.photoItemEdition && v.publisher == item.photoItemPublisher
            && v.placeOfPublication == item.photoItemPlace && v.publicationDate == item.photoItemDate
            && v.journalTitle == item.photoJournalTitle && v.journalVolume == item.photoJournalVolume
            && v.journalIssue == item.photoJournalIssue && v.journalMonth == item.photoJournalMonth
            && v.journalYear == item.photoJournalYear)
      && v.dueDate == DueDay(item.dueDate)
      && v.status == item.transactionStatus && v.transactionNumber == item.transactionNumber
      && v.transactionDate == item.transactionDate && v.creationDate == item.creationDate
      && v.callNumber == item.callNumber && v.issn == item.issn
      && v.illNumber == item.illNumber && v.documentType == item.documentType
  {
  }

  /** Taking the date part twice changes nothing more. */
  lemma DueDayIdempotent(dueDate: string)
    ensures DueDay(DueDay(dueDate)) == DueDay(dueDate)
  {
    var d := DueDay(dueDate);
    if d != "" {
      BeforeFirstWithout(d, 'T');
    }
  }

  /** A timestamp `d` + "T" + `rest` whose date part has no 'T' is cut to `d`. */
  lemma DueDayOfTimestamp(d: string, rest: string)
    requires 'T' !in d
    ensures DueDay(d + ['T'] + rest) == d
  {
    BeforeFirstPrefix(d, 'T', rest);
  }

  /** The timestamp shape the gateway expects. */
  lemma DueDayExample(dueDate: string)
    requires dueDate == "2017-06-28T00:00:00"
    ensures DueDay(dueDate) == "2017-06-28"
  {
    var d, rest := "2017-06-28", "00:00:00";
    assert dueDate == d + ['T'] + rest;
    assert 'T' !in d by {
      forall i | 0 <= i < |d| ensures d[i] != 'T' { }
    }
    DueDayOfTimestamp(d, rest);
  }
}
