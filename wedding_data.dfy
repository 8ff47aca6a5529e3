/**
 * The guest ledger of src/hooks/useWeddingData.ts: the in-memory guest list and
 * its persisted copy, the four mutations that replace both through `saveGuests`,
 * and the derived statistics.
 */
module WeddingData {
  import opened Wrappers
  import opened Guests

  // ---------------------------------------------------------------------------
  // The new lists the mutations build

  /**
   * `Partial<WeddingGuest>`: each field may be absent. `message` is doubly optional
   * because a patch may carry the key with the value `undefined` (the list editor
   * does so for a guest without a message), and the spread copies it.
   */
  datatype Patch = Patch(
    id: Option<string>,
    envelopeNumber: Option<nat>,
    name: Option<string>,
    amount: Option<nat>,
    mealTickets: Option<int>,
    message: Option<Option<string>>,
    timestamp: Option<int>)

  /** The empty patch `{}`. */
  const NoChanges := Patch(None, None, None, None, None, None, None)

  /** The number `addGuest` assigns: one more than the largest existing number, 1 for an empty list. */
  function AssignedEnvelopeNumber(s: seq<Guest>): (n: nat)
    ensures s == [] ==> n == 1
    ensures forall i :: 0 <= i < |s| ==> s[i].envelopeNumber < n
    ensures s != [] ==> exists i :: 0 <= i < |s| && s[i].envelopeNumber + 1 == n
  {
    var maxEnvelopeNumber := if |s| > 0 then MaxEnvelope(s) else 0;
    maxEnvelopeNumber + 1
  }

  /** The record `addGuest` builds from a draft, with the id and time it is given. */
  function NewEntry(s: seq<Guest>, d: Draft, id: string, now: int): (g: Guest)
    ensures g.name == d.name && g.amount == d.amount
    ensures g.mealTickets == d.mealTickets && g.message == d.message
    ensures g.id == id && g.timestamp == now
    ensures g.envelopeNumber == AssignedEnvelopeNumber(s)
  {
    Guest(id, AssignedEnvelopeNumber(s), d.name, d.amount, d.mealTickets, d.message, now)
  }

  /** `[...guests, newGuest]`. */
  function Added(s: seq<Guest>, d: Draft, id: string, now: int): (r: seq<Guest>)
    ensures |r| == |s| + 1 && r[..|s|] == s
    ensures r[|s|] == NewEntry(s, d, id, now)
  {
    s + [NewEntry(s, d, id, now)]
  }

  /** `guests.filter(guest => guest.id !== id)`. */
  function Removed(s: seq<Guest>, id: string): (r: seq<Guest>)
    ensures |r| <= |s|
  {
    if s == [] then []
    else if s[0].id != id then [s[0]] + Removed(s[1..], id)
    else Removed(s[1..], id)
  }

  /** A removal keeps exactly the records whose id differs. */
  lemma {:induction false} RemovedMembers(s: seq<Guest>, id: string)
    ensures forall g :: g in Removed(s, id) <==> g in s && g.id != id
  {
    if s != [] {
      RemovedMembers(s[1..], id);
      assert s == [s[0]] + s[1..];
    }
  }

  /** `{ ...guest, ...updates }`: every field the patch carries overrides the record's. */
  function ApplyPatch(g: Guest, p: Patch): (r: Guest)
    ensures p.id.None? ==> r.id == g.id
    ensures p.envelopeNumber.None? ==> r.envelopeNumber == g.envelopeNumber
    ensures p.name.None? ==> r.name == g.name
    ensures p.amount.None? ==> r.amount == g.amount
    ensures p.mealTickets.None? ==> r.mealTickets == g.mealTickets
    ensures p.message.None? ==> r.message == g.message
    ensures p.timestamp.None? ==> r.timestamp == g.timestamp
    ensures p.id.Some? ==> r.id == p.id.value
    ensures p.envelopeNumber.Some? ==> r.envelopeNumber == p.envelopeNumber.value
    ensures p.timestamp.Some? ==> r.timestamp == p.timestamp.value
    ensures p.name.Some? ==> r.name == p.name.value
    ensures p.amount.Some? ==> r.amount == p.amount.value
    ensures p.mealTickets.Some? ==> r.mealTickets == p.mealTickets.value
    ensures p.message.Some? ==> r.message == p.message.value
  {
    Guest(
      p.id.GetOr(g.id),
      p.envelopeNumber.GetOr(g.envelopeNumber),
      p.name.GetOr(g.name),
      p.amount.GetOr(g.amount),
      p.mealTickets.GetOr(g.mealTickets),
      p.message.GetOr(g.message),
      p.timestamp.GetOr(g.timestamp))
  }

  /** `guests.map(guest => guest.id === id ? { ...guest, ...updates } : guest)`. */
  function Updated(s: seq<Guest>, id: string, p: Patch): (r: seq<Guest>)
    ensures |r| == |s|
    ensures forall i :: 0 <= i < |s| ==> r[i] == if s[i].id == id then ApplyPatch(s[i], p) else s[i]
  {
    if s == [] then []
    else [if s[0].id == id then ApplyPatch(s[0], p) else s[0]] + Updated(s[1..], id, p)
  }

  // ---------------------------------------------------------------------------
  // The ledger object

  class Ledger {
    /** The `guests` state. */
    var guests: seq<Guest>
    /** What the last `saveGuests` wrote to the persistent slot. */
    var stored: seq<Guest>

    /** The ledger once the persisted list has been loaded. */
    constructor (persisted: seq<Guest>)
      ensures guests == persisted && stored == persisted
    {
      guests := persisted;
      stored := persisted;
    }

    /** `saveGuests`: replaces the in-memory list and writes the same list to storage. */
    method SaveGuests(newGuests: seq<Guest>)
      modifies this
      ensures guests == newGuests && stored == newGuests
    {
      guests := newGuests;
      stored := newGuests;
    }

    /** `addGuest`: appends a record numbered one past the current maximum and returns it. */
    method AddGuest(d: Draft, id: string, now: int) returns (g: Guest)
      modifies this
      ensures g == NewEntry(old(guests), d, id, now)
      ensures guests == Added(old(guests), d, id, now) && stored == guests
      ensures GetStats().totalGuests == old(GetStats().totalGuests) + 1
      ensures GetStats().totalAmount == old(GetStats().totalAmount) + d.amount
      ensures GetStats().totalMealTickets == old(GetStats().totalMealTickets) + d.mealTickets
    {
      g := NewEntry(guests, d, id, now);
      SumsConcat(guests, [g]);
      SaveGuests(guests + [g]);
    }

    /** `removeGuest`: drops every record with the id. */
    method RemoveGuest(id: string)
      modifies this
      ensures guests == Removed(old(guests), id) && stored == guests
    {
      SaveGuests(Removed(guests, id));
    }

    /** `updateGuest`: patches every record with the id. */
    method UpdateGuest(id: string, p: Patch)
      modifies this
      ensures guests == Updated(old(guests), id, p) && stored == guests
    {
      SaveGuests(Updated(guests, id, p));
    }

    /** `clearAll`. */
    method ClearAll()
      modifies this
      ensures guests == [] && stored == []
    {
      SaveGuests([]);
    }

    /**
     * `getStats`: count, the two sums, and the average amount rounded half up
     * (`Math.round` of a non-negative quotient), 0 for an empty ledger.
     */
    function GetStats(): (st: Stats)
      reads this
      ensures st.totalGuests == |guests|
      ensures st.totalAmount == SumAmount(guests)
      ensures st.totalMealTickets == SumMealTickets(guests)
      ensures |guests| == 0 ==> st.averageAmount == 0
      ensures |guests| > 0 ==>
        2 * |guests| * st.averageAmount <= 2 * st.totalAmount + |guests| < 2 * |guests| * (st.averageAmount + 1)
    {
      var totalGuests := |guests|;
      var totalAmount := SumAmount(guests);
      var averageAmount := if totalGuests > 0 then RoundedAverage(totalAmount, totalGuests) else 0;
      Stats(totalGuests, totalAmount, averageAmount, SumMealTickets(guests))
    }
  }

  /** `Math.round(total / count)` for a non-negative total: the quotient rounded half up. */
  function RoundedAverage(total: nat, count: nat): (avg: nat)
    requires count > 0
    ensures 2 * count * avg <= 2 * total + count < 2 * count * (avg + 1)
  {
    (2 * total + count) / (2 * count)
  }

  // ---------------------------------------------------------------------------
  // Properties of the numbering

  /** Adds performed one after another, each on the list the previous one left. */
  datatype AddRequest = AddRequest(draft: Draft, id: string, now: int)

  function AddedInTurn(s: seq<Guest>, reqs: seq<AddRequest>): (r: seq<Guest>)
    ensures |r| == |s| + |reqs|
    decreases |reqs|
  {
    if reqs == [] then s
    else
      var last := reqs[|reqs| - 1];
      Added(AddedInTurn(s, reqs[..|reqs| - 1]), last.draft, last.id, last.now)
  }

  /** A list numbered 1, 2, …, n in order gives the next add the number n + 1. */
  lemma NextAfterConsecutive(s: seq<Guest>)
    requires forall i :: 0 <= i < |s| ==> s[i].envelopeNumber == i + 1
    ensures AssignedEnvelopeNumber(s) == |s| + 1
  {
    if s != [] {
      var n := AssignedEnvelopeNumber(s);
      assert s[|s| - 1].envelopeNumber < n;
      var k :| 0 <= k < |s| && s[k].envelopeNumber + 1 == n;
    }
  }

  /** From an empty ledger, n adds without removals number the entries 1..n in call order. */
  lemma {:induction false} SequentialNumbering(reqs: seq<AddRequest>)
    ensures forall i :: 0 <= i < |reqs| ==>
      AddedInTurn([], reqs)[i].envelopeNumber == i + 1 && AddedInTurn([], reqs)[i].id == reqs[i].id
  {
    if reqs != [] {
      var prefix, last := reqs[..|reqs| - 1], reqs[|reqs| - 1];
      SequentialNumbering(prefix);
      var before := AddedInTurn([], prefix);
      var after := AddedInTurn([], reqs);
      assert after == Added(before, last.draft, last.id, last.now);
      NextAfterConsecutive(before);
      forall i | 0 <= i < |reqs|
        ensures after[i].envelopeNumber == i + 1 && after[i].id == reqs[i].id
      {
        if i < |prefix| {
          assert after[i] == before[i] && prefix[i] == reqs[i];
        }
      }
    }
  }

  /** Filtering distributes over concatenation: survivors keep their order. */
  lemma {:induction false} RemovedConcat(a: seq<Guest>, b: seq<Guest>, id: string)
    ensures Removed(a + b, id) == Removed(a, id) + Removed(b, id)
  {
    if a != [] {
      assert (a + b)[1..] == a[1..] + b;
      RemovedConcat(a[1..], b, id);
    } else {
      assert a + b == b;
    }
  }

  /** Removing an id no record has changes nothing. */
  lemma {:induction false} RemoveAbsentIsNoop(s: seq<Guest>, id: string)
    requires forall i :: 0 <= i < |s| ==> s[i].id != id
    ensures Removed(s, id) == s
  {
    if s != [] {
      RemoveAbsentIsNoop(s[1..], id);
      assert s == [s[0]] + s[1..];
    }
  }

  /**
   * While a record holding the largest number survives a removal, the next add
   * gets the same number as before the removal, which exceeds every removed
   * number: the gap a removal leaves is never refilled.
   */
  lemma RemovalLeavesGap(s: seq<Guest>, id: string, top: nat)
    requires 0 <= top < |s| && s[top].id != id && s[top].envelopeNumber == MaxEnvelope(s)
    ensures AssignedEnvelopeNumber(Removed(s, id)) == AssignedEnvelopeNumber(s)
    ensures forall g :: g in s && g.id == id ==> g.envelopeNumber < AssignedEnvelopeNumber(Removed(s, id))
  {
    RemovedMembers(s, id);
    SameLargest(s, Removed(s, id), s[top]);
  }

  /** A sublist that keeps a record holding the largest number is given the same next number. */
  lemma SameLargest(s: seq<Guest>, r: seq<Guest>, top: Guest)
    requires forall g :: g in r ==> g in s
    requires top in r && top in s && top.envelopeNumber == MaxEnvelope(s)
    ensures AssignedEnvelopeNumber(r) == AssignedEnvelopeNumber(s)
  {
    var k :| 0 <= k < |r| && r[k].envelopeNumber + 1 == AssignedEnvelopeNumber(r);
    assert r[k] in s;
  }

  /**
   * In a ledger numbered 1..n whose last record is numbered n (its id unique),
   * removing that record makes the next add reuse n.
   */
  lemma RemovingTopReusesItsNumber(front: seq<Guest>, last: Guest)
    requires forall i :: 0 <= i < |front| ==> front[i].envelopeNumber == i + 1
    requires last.envelopeNumber == |front| + 1
    requires forall i :: 0 <= i < |front| ==> front[i].id != last.id
    ensures AssignedEnvelopeNumber(Removed(front + [last], last.id)) == last.envelopeNumber
  {
    RemoveUniqueLast(front, last);
    NextAfterConsecutive(front);
  }

  /** Removing the id of a record appended last, which no earlier record has, drops just that record. */
  lemma RemoveUniqueLast(front: seq<Guest>, last: Guest)
    requires forall i :: 0 <= i < |front| ==> front[i].id != last.id
    ensures Removed(front + [last], last.id) == front
  {
    RemovedConcat(front, [last], last.id);
    RemoveAbsentIsNoop(front, last.id);
    assert Removed([last], last.id) == Removed([], last.id) by {
      assert [last][1..] == [];
    }
  }

  // ---------------------------------------------------------------------------
  // Properties of updates

  /** Updating an id no record has changes nothing. */
  lemma UpdateAbsentIsNoop(s: seq<Guest>, id: string, p: Patch)
    requires forall i :: 0 <= i < |s| ==> s[i].id != id
    ensures Updated(s, id, p) == s
  {
  }

  /** Patching only the amount changes only the amount of the matching records. */
  lemma UpdateAmountOnly(s: seq<Guest>, id: string, amount: nat)
    ensures forall i :: 0 <= i < |s| ==>
      Updated(s, id, NoChanges.(amount := Some(amount)))[i]
        == if s[i].id == id then s[i].(amount := amount) else s[i]
  {
  }
}
