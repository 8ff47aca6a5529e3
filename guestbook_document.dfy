/**
 * The printable register of src/components/GuestbookDocument.tsx: the guests in
 * envelope order, cut into pages of twenty rows, each page padded with numbered
 * blank rows, and a summary page with the totals.
 */
module GuestbookDocument {
  import opened Wrappers
  import opened JsStrings
  import opened Guests
  import opened WeddingData

  const ItemsPerPage: nat := 20

  function Min(a: int, b: int): int {
    if a <= b then a else b
  }

  // ---------------------------------------------------------------------------
  // Remarks column

  /** "식권 N장": the meal-ticket remark. */
  function TicketsText(n: int): (r: string)
    ensures |r| > 0
  {
    "식권 " + IntString(n) + "장"
  }

  /** The remark parts: the meal tickets when there are any, then the message when it is truthy. */
  function RemarkParts(g: Guest): (r: seq<string>)
    ensures |r| == (if g.mealTickets > 0 then 1 else 0) + (if HasMessage(g) then 1 else 0)
    ensures forall k :: 0 <= k < |r| ==> r[k] != ""
  {
    (if g.mealTickets > 0 then [TicketsText(g.mealTickets)] else [])
    + (if HasMessage(g) then [g.message.value] else [])
  }

  /** `formatRemarks` of the document: the parts joined by " · ", empty when there are none. */
  function DocumentRemarks(g: Guest): (r: string)
    ensures r == "" <==> g.mealTickets <= 0 && !HasMessage(g)
    ensures g.mealTickets > 0 && HasMessage(g) ==> r == TicketsText(g.mealTickets) + " · " + g.message.value
    ensures g.mealTickets > 0 && !HasMessage(g) ==> r == TicketsText(g.mealTickets)
    ensures g.mealTickets <= 0 && HasMessage(g) ==> r == g.message.value
  {
    var parts := RemarkParts(g);
    assert g.mealTickets > 0 && HasMessage(g) ==>
      parts == [TicketsText(g.mealTickets), g.message.value] && parts[1..] == [g.message.value]
      && Join(parts[1..], " · ") == g.message.value;
    Join(parts, " · ")
  }

  // ---------------------------------------------------------------------------
  // Pages

  /** The number of content pages: ceil(n / 20). */
  function PageCount(n: nat): nat {
    (n + ItemsPerPage - 1) / ItemsPerPage
  }

  /** Page p of the sorted list: `sortedGuests.slice(20p, 20p + 20)`. */
  function PageSlice(s: seq<Guest>, p: nat): seq<Guest>
    requires p < PageCount(|s|)
  {
    PageCountBounds(|s|);
    s[p * ItemsPerPage .. Min(p * ItemsPerPage + ItemsPerPage, |s|)]
  }

  /** The pages of a sorted list. */
  function PageSplit(s: seq<Guest>): (pages: seq<seq<Guest>>)
    ensures |pages| == PageCount(|s|)
    ensures forall p :: 0 <= p < |pages| ==> pages[p] == PageSlice(s, p)
  {
    seq(PageCount(|s|), p requires 0 <= p < PageCount(|s|) => PageSlice(s, p))
  }

  /** The pages written one after the other. */
  function Flatten(pages: seq<seq<Guest>>): seq<Guest> {
    if pages == [] then [] else Flatten(pages[..|pages| - 1]) + pages[|pages| - 1]
  }

  /** The guests sorted by envelope number, then cut into pages. */
  method Paginate(guests: seq<Guest>) returns (pages: seq<seq<Guest>>)
    ensures pages == PageSplit(SortBy(ByEnvelopeNumber, guests))
  {
    var sortedGuests := SortBy(ByEnvelopeNumber, guests);
    pages := SplitPages(sortedGuests);
  }

  /** The paging loop: one page pushed per step of twenty. */
  method SplitPages(sortedGuests: seq<Guest>) returns (pages: seq<seq<Guest>>)
    ensures pages == PageSplit(sortedGuests)
  {
    var n := |sortedGuests|;
    pages := [];
    var i := 0;
    while i < n
      invariant i == ItemsPerPage * |pages|
      invariant |pages| <= PageCount(n)
      invariant forall p :: 0 <= p < |pages| ==> pages[p] == PageSlice(sortedGuests, p)
    {
      PageIndex(n, |pages|);
      var page := sortedGuests[i .. Min(i + ItemsPerPage, n)];
      assert page == PageSlice(sortedGuests, |pages|);
      pages := pages + [page];
      i := i + ItemsPerPage;
    }
    PageIndex(n, |pages|);
  }

  /** The numbers shown on the blank rows of a page holding `len` guests. */
  function BlankNumbers(pageIndex: nat, len: nat): (r: seq<nat>)
    requires len <= ItemsPerPage
    ensures |r| == ItemsPerPage - len
    ensures forall i :: 0 <= i < |r| ==> pageIndex * ItemsPerPage + len < r[i] <= (pageIndex + 1) * ItemsPerPage
    ensures forall i :: 0 < i < |r| ==> r[i] == r[i - 1] + 1
  {
    seq(ItemsPerPage - len, i => pageIndex * ItemsPerPage + len + i + 1)
  }

  // ---------------------------------------------------------------------------
  // Totals

  datatype Totals = Totals(guestCount: nat, totalAmount: nat, totalMealTickets: int)

  /** The summary page: the guest count and the two reduce-sums over the unsorted list. */
  function DocumentTotals(guests: seq<Guest>): (r: Totals)
    ensures r.guestCount == |SortBy(ByEnvelopeNumber, guests)|
    ensures r.totalAmount == SumAmount(SortBy(ByEnvelopeNumber, guests))
    ensures r.totalMealTickets == SumMealTickets(SortBy(ByEnvelopeNumber, guests))
  {
    SumsOfPermutation(SortBy(ByEnvelopeNumber, guests), guests);
    Totals(|guests|, SumAmount(guests), SumMealTickets(guests))
  }

  // ---------------------------------------------------------------------------
  // Lemmas

  /** There are no pages for no guests; otherwise the last page is the one holding guest n. */
  lemma PageCountBounds(n: nat)
    ensures PageCount(n) == 0 <==> n == 0
    ensures PageCount(n) > 0 ==> ItemsPerPage * (PageCount(n) - 1) < n <= ItemsPerPage * PageCount(n)
  {
  }

  /** Page k exists exactly when some guest comes after the first 20k. */
  lemma PageIndex(n: nat, k: nat)
    ensures k < PageCount(n) <==> ItemsPerPage * k < n
  {
  }

  /** The first k pages written out are the first 20k guests. */
  lemma {:induction false} FlattenPrefix(s: seq<Guest>, k: nat)
    requires k <= PageCount(|s|)
    ensures Flatten(PageSplit(s)[..k]) == s[..Min(ItemsPerPage * k, |s|)]
  {
    PageCountBounds(|s|);
    var pages := PageSplit(s);
    if k > 0 {
      FlattenPrefix(s, k - 1);
      assert pages[..k][..k - 1] == pages[..k - 1];
      assert Flatten(pages[..k]) == Flatten(pages[..k - 1]) + pages[k - 1];
      var a, b := ItemsPerPage * (k - 1), Min(ItemsPerPage * k, |s|);
      assert s[..b] == s[..a] + s[a..b];
    }
  }

  /** Writing the pages one after the other gives the sorted list back. */
  lemma PagesCoverAll(s: seq<Guest>)
    ensures Flatten(PageSplit(s)) == s
  {
    PageCountBounds(|s|);
    FlattenPrefix(s, PageCount(|s|));
    assert PageSplit(s)[..PageCount(|s|)] == PageSplit(s);
  }

  /** Every page but the last is full; the last holds between 1 and 20 guests. */
  lemma PageSizes(s: seq<Guest>)
    ensures forall p :: 0 <= p < PageCount(|s|) - 1 ==> |PageSplit(s)[p]| == ItemsPerPage
    ensures PageCount(|s|) > 0 ==> 1 <= |PageSplit(s)[PageCount(|s|) - 1]| <= ItemsPerPage
  {
    PageCountBounds(|s|);
  }

  /** Guest rows and blank rows together fill every page with exactly 20 rows. */
  lemma TwentyRowsPerPage(s: seq<Guest>, p: nat)
    requires p < PageCount(|s|)
    ensures |PageSplit(s)[p]| <= ItemsPerPage
    ensures |PageSplit(s)[p]| + |BlankNumbers(p, |PageSplit(s)[p]|)| == ItemsPerPage
  {
    PageCountBounds(|s|);
  }

  /**
   * Only the last page has blank rows, and their numbers carry on from the last
   * guest: n + 1, n + 2, ... up to 20 times the page count.
   */
  lemma BlankRowsContinue(s: seq<Guest>, p: nat)
    requires p < PageCount(|s|)
    ensures p < PageCount(|s|) - 1 ==> BlankNumbers(p, |PageSplit(s)[p]|) == []
    ensures p == PageCount(|s|) - 1 ==>
              var blanks := BlankNumbers(p, |PageSplit(s)[p]|);
              |blanks| == ItemsPerPage * PageCount(|s|) - |s|
              && forall i :: 0 <= i < |blanks| ==> blanks[i] == |s| + i + 1
  {
    PageCountBounds(|s|);
  }

  /** With 45 guests the third page holds five and its blank rows are numbered 46 to 60. */
  lemma FortyFiveGuests(s: seq<Guest>)
    requires |s| == 45
    ensures PageCount(|s|) == 3
    ensures |PageSplit(s)[2]| == 5
    ensures BlankNumbers(2, 5) == seq(15, i => 46 + i)
  {
    PageCountBounds(|s|);
  }

  /** The pages hold the same amounts and tickets as the summary page counts. */
  lemma PagesMatchTotals(guests: seq<Guest>)
    ensures var pages := PageSplit(SortBy(ByEnvelopeNumber, guests));
            SumAmount(Flatten(pages)) == DocumentTotals(guests).totalAmount
            && SumMealTickets(Flatten(pages)) == DocumentTotals(guests).totalMealTickets
            && |Flatten(pages)| == DocumentTotals(guests).guestCount
  {
    var sorted := SortBy(ByEnvelopeNumber, guests);
    PagesCoverAll(sorted);
    SumsOfPermutation(sorted, guests);
  }

  /** The summary page agrees with the ledger's statistics. */
  lemma TotalsMatchStats(ledger: Ledger)
    ensures DocumentTotals(ledger.guests).guestCount == ledger.GetStats().totalGuests
    ensures DocumentTotals(ledger.guests).totalAmount == ledger.GetStats().totalAmount
    ensures DocumentTotals(ledger.guests).totalMealTickets == ledger.GetStats().totalMealTickets
  {
  }
}
