/**
 * The page of src/app/page.tsx: the preview of the next envelope number shown on
 * the entry form, and the highlight set on the record just added.
 */
module Page {
  import opened Guests
  import opened WeddingData

  /** `nextEnvelopeNumber`: the largest existing number plus one, 1 for an empty list. */
  function NextEnvelopeNumber(guests: seq<Guest>): (n: nat)
    ensures guests == [] ==> n == 1
    ensures forall i :: 0 <= i < |guests| ==> guests[i].envelopeNumber < n
    ensures guests != [] ==> exists i :: 0 <= i < |guests| && guests[i].envelopeNumber + 1 == n
  {
    if |guests| > 0 then MaxEnvelope(guests) + 1 else 1
  }

  /** The preview always shows the number the next `addGuest` on the same list assigns. */
  lemma PreviewMatchesAdd(guests: seq<Guest>, d: Draft, id: string, now: int)
    ensures NextEnvelopeNumber(guests) == NewEntry(guests, d, id, now).envelopeNumber
  {
  }

  /** The page's own state: the ledger it drives and the highlighted record id. */
  class Home {
    const ledger: Ledger
    var highlightId: string

    constructor (ledger: Ledger)
      ensures this.ledger == ledger && highlightId == ""
    {
      this.ledger := ledger;
      highlightId := "";
    }

    /** `handleAddGuest`: adds the draft and highlights the record just added. */
    method HandleAddGuest(d: Draft, id: string, now: int)
      modifies this, ledger
      ensures ledger.guests == Added(old(ledger.guests), d, id, now) && ledger.stored == ledger.guests
      ensures highlightId == ledger.guests[|ledger.guests| - 1].id == id
      ensures ledger.guests[|ledger.guests| - 1].envelopeNumber == NextEnvelopeNumber(old(ledger.guests))
    {
      var newGuest := ledger.AddGuest(d, id, now);
      highlightId := newGuest.id;
    }
  }
}
