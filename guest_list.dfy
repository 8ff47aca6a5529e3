/**
 * The list view of src/components/GuestList.tsx: the guests newest first, the
 * name/number search, the remarks column, and the inline editor whose edits are
 * handed to the ledger's `updateGuest`.
 */
module GuestList {
  import opened Wrappers
  import opened JsStrings
  import opened Guests
  import opened WeddingData
  import GuestbookDocument

  // ---------------------------------------------------------------------------
  // Remarks column

  /** `formatRemarks` of the list: the same parts as the printed register, "-" when there are none. */
  function ListRemarks(g: Guest): (r: string)
    ensures r != ""
    ensures g.mealTickets <= 0 && !HasMessage(g) ==> r == "-"
    ensures g.mealTickets > 0 || HasMessage(g) ==> r == GuestbookDocument.DocumentRemarks(g)
  {
    var joined := Join(GuestbookDocument.RemarkParts(g), " · ");
    if joined == "" then "-" else joined
  }

  // ---------------------------------------------------------------------------
  // Ordering and search

  /** The search matches the name or the decimal envelope number as a substring. */
  function MatchesSearch(g: Guest, term: string): (r: bool)
    ensures term == "" ==> r
    ensures |term| > |g.name| && |term| > |DecimalString(g.envelopeNumber)| ==> !r
  {
    assert OccursAt(g.name, term, 0) <== term == "";
    Contains(g.name, term) || Contains(DecimalString(g.envelopeNumber), term)
  }

  /** `filter(g => g.name.includes(term) || g.envelopeNumber.toString().includes(term))`. */
  function SearchFilter(s: seq<Guest>, term: string): (r: seq<Guest>)
    ensures |r| <= |s|
  {
    if s == [] then []
    else
      var rest := SearchFilter(s[1..], term);
      if MatchesSearch(s[0], term) then [s[0]] + rest else rest
  }

  /** The filter keeps exactly the guests that match. */
  lemma {:induction false} SearchFilterMembers(s: seq<Guest>, term: string)
    ensures forall g :: g in SearchFilter(s, term) <==> g in s && MatchesSearch(g, term)
  {
    if s != [] {
      SearchFilterMembers(s[1..], term);
      assert s == [s[0]] + s[1..];
    }
  }

  /** The filter keeps every copy of a matching guest and no copy of any other. */
  lemma {:induction false} SearchFilterCount(s: seq<Guest>, term: string)
    ensures forall g :: multiset(SearchFilter(s, term))[g] == if MatchesSearch(g, term) then multiset(s)[g] else 0
  {
    if s != [] {
      SearchFilterCount(s[1..], term);
      assert s == [s[0]] + s[1..];
    }
  }

  /** The rows the list shows: every guest newest first, narrowed by a non-empty search term. */
  function DisplayedGuests(guests: seq<Guest>, term: string): (r: seq<Guest>)
    ensures SortedBy(NewestFirst, r)
    ensures term == "" ==> multiset(r) == multiset(guests)
    ensures forall g :: g in r <==> g in guests && (term == "" || MatchesSearch(g, term))
    ensures term != "" ==> forall g :: multiset(r)[g] == if MatchesSearch(g, term) then multiset(guests)[g] else 0
  {
    var sortedGuests := SortBy(NewestFirst, guests);
    assert forall g :: g in sortedGuests <==> g in guests by {
      forall g ensures g in sortedGuests <==> g in guests {
        assert g in sortedGuests <==> g in multiset(sortedGuests);
        assert g in guests <==> g in multiset(guests);
      }
    }
    if term != "" then
      FilterKeepsOrder(NewestFirst, sortedGuests, term);
      SearchFilterMembers(sortedGuests, term);
      SearchFilterCount(sortedGuests, term);
      SearchFilter(sortedGuests, term)
    else sortedGuests
  }

  /** The filter keeps a sorted list sorted. */
  lemma {:induction false} FilterKeepsOrder(o: Order, s: seq<Guest>, term: string)
    requires SortedBy(o, s)
    ensures SortedBy(o, SearchFilter(s, term))
  {
    if s != [] {
      var rest := SearchFilter(s[1..], term);
      FilterKeepsOrder(o, s[1..], term);
      SearchFilterMembers(s[1..], term);
      forall k | 0 <= k < |rest|
        ensures Key(o, s[0]) <= Key(o, rest[k])
      {
        assert rest[k] in s[1..];
        var m :| 0 <= m < |s[1..]| && s[1..][m] == rest[k];
        assert s[m + 1] == rest[k];
      }
    }
  }

  /** The filter works piecewise, so the rows it keeps stay in their relative order. */
  lemma {:induction false} FilterConcat(a: seq<Guest>, b: seq<Guest>, term: string)
    ensures SearchFilter(a + b, term) == SearchFilter(a, term) + SearchFilter(b, term)
  {
    if a != [] {
      assert (a + b)[0] == a[0];
      assert (a + b)[1..] == a[1..] + b;
      FilterConcat(a[1..], b, term);
    } else {
      assert a + b == b;
    }
  }

  /** An empty term shows every guest, newest first. */
  lemma EmptySearchShowsAll(guests: seq<Guest>)
    ensures DisplayedGuests(guests, "") == SortBy(NewestFirst, guests)
  {
  }

  // ---------------------------------------------------------------------------
  // The editor's inputs

  /** The patch `startEdit` loads: exactly the name, amount, meal tickets and message. */
  function EditPatch(g: Guest): (p: Patch)
    ensures ApplyPatch(g, p) == g
    ensures forall h: Guest :: ApplyPatch(h, p)
              == h.(name := g.name, amount := g.amount, mealTickets := g.mealTickets, message := g.message)
  {
    Patch(None, None, Some(g.name), Some(g.amount), Some(g.mealTickets), Some(g.message), None)
  }

  /** The amount input: digits only, read as a number, 0 when nothing is left. */
  function SanitizedAmount(value: string): (n: nat)
    ensures n == ParseDigits(KeepDigits(value))
    ensures IsDigits(value) ==> n == ParseDigits(value)
  {
    assert IsDigits(value) ==> KeepDigits(value) == value by {
      if IsDigits(value) {
        KeepDigitsOfDigits(value);
      }
    }
    var numeric := KeepDigits(value);
    if numeric != "" then ParseDigits(numeric) else 0
  }

  /** The meal-ticket input: `parseInt(value) || 0`; a negative count is let through. */
  function SanitizedTickets(value: string): (n: int)
    ensures JsParseInt(value).None? ==> n == 0
    ensures forall i: int :: value == IntString(i) ==> n == i
  {
    assert forall i: int :: value == IntString(i) ==> JsParseInt(value) == Some(i) by {
      forall i: int | value == IntString(i)
        ensures JsParseInt(value) == Some(i)
      {
        ParseIntString(i);
      }
    }
    JsParseInt(value).GetOr(0)
  }

  // ---------------------------------------------------------------------------
  // The list's own state

  class ListView {
    var searchTerm: string
    /** The id of the record being edited, `null` when none is. */
    var editingId: Option<string>
    var editData: Patch

    constructor ()
      ensures searchTerm == "" && editingId == None && editData == NoChanges
    {
      searchTerm := "";
      editingId := None;
      editData := NoChanges;
    }

    method SetSearchTerm(value: string)
      modifies this
      ensures searchTerm == value && editingId == old(editingId) && editData == old(editData)
    {
      searchTerm := value;
    }

    /** `startEdit`: the record's id and its four editable fields. */
    method StartEdit(g: Guest)
      modifies this
      ensures editingId == Some(g.id) && editData == EditPatch(g)
      ensures searchTerm == old(searchTerm)
    {
      editingId := Some(g.id);
      editData := EditPatch(g);
    }

    /** `cancelEdit`: leaves editing without touching the ledger. */
    method CancelEdit()
      modifies this
      ensures editingId == None && editData == NoChanges
      ensures searchTerm == old(searchTerm)
    {
      editingId := None;
      editData := NoChanges;
    }

    /** `saveEdit`: hands the edits to the ledger once, then leaves editing. */
    method SaveEdit(id: string, ledger: Ledger)
      modifies this, ledger
      ensures ledger.guests == Updated(old(ledger.guests), id, old(editData))
      ensures ledger.stored == ledger.guests
      ensures editingId == None && editData == NoChanges
      ensures searchTerm == old(searchTerm)
    {
      ledger.UpdateGuest(id, editData);
      editingId := None;
      editData := NoChanges;
    }

    method EditName(value: string)
      modifies this
      ensures editData == old(editData).(name := Some(value))
      ensures editingId == old(editingId) && searchTerm == old(searchTerm)
    {
      editData := editData.(name := Some(value));
    }

    method EditAmount(value: string)
      modifies this
      ensures editData == old(editData).(amount := Some(SanitizedAmount(value)))
      ensures editingId == old(editingId) && searchTerm == old(searchTerm)
    {
      editData := editData.(amount := Some(SanitizedAmount(value)));
    }

    method EditMealTickets(value: string)
      modifies this
      ensures editData == old(editData).(mealTickets := Some(SanitizedTickets(value)))
      ensures editingId == old(editingId) && searchTerm == old(searchTerm)
    {
      editData := editData.(mealTickets := Some(SanitizedTickets(value)));
    }

    method EditMessage(value: string)
      modifies this
      ensures editData == old(editData).(message := Some(Some(value)))
      ensures editingId == old(editingId) && searchTerm == old(searchTerm)
    {
      editData := editData.(message := Some(Some(value)));
    }
  }

  // ---------------------------------------------------------------------------
  // Editing, end to end

  /** Saving right after starting an edit leaves every record as it was. */
  lemma SaveWithoutChangesIsNoop(s: seq<Guest>, g: Guest)
    requires forall i :: 0 <= i < |s| && s[i].id == g.id ==> s[i] == g
    ensures Updated(s, g.id, EditPatch(g)) == s
  {
  }

  /** Changing only the amount in the editor changes only the amount of the edited record. */
  lemma SaveAmountEdit(s: seq<Guest>, g: Guest, value: string)
    requires forall i :: 0 <= i < |s| && s[i].id == g.id ==> s[i] == g
    ensures forall i :: 0 <= i < |s| ==>
      Updated(s, g.id, EditPatch(g).(amount := Some(SanitizedAmount(value))))[i]
        == if s[i].id == g.id then g.(amount := SanitizedAmount(value)) else s[i]
  {
  }
}
