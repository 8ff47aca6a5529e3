/**
 * The records of the ledger (src/types/wedding.ts) and what several components
 * compute from a list of them in the same way: the largest envelope number, the
 * reduce-sums of amounts and meal tickets, and the stable comparison sort of
 * `Array.prototype.sort` under the two orders the application uses.
 */
module Guests {
  import opened Wrappers

  /**
   * One recorded gift. `envelopeNumber` 0 stands for a missing number, which the
   * code reads as 0 (`g.envelopeNumber || 0`). `timestamp` is the creation time
   * in milliseconds. `mealTickets` is an integer because the list editor stores
   * whatever integer its number input yields.
   */
  datatype Guest = Guest(
    id: string,
    envelopeNumber: nat,
    name: string,
    amount: nat,
    mealTickets: int,
    message: Option<string>,
    timestamp: int)

  /** What the entry form hands to the ledger: a guest without id, number or time. */
  datatype Draft = Draft(name: string, amount: nat, mealTickets: int, message: Option<string>)

  /** The derived statistics of the ledger. */
  datatype Stats = Stats(totalGuests: nat, totalAmount: nat, averageAmount: nat, totalMealTickets: int)

  /** JavaScript truthiness of `guest.message`: present and not the empty string. */
  predicate HasMessage(g: Guest) {
    g.message.Some? && g.message.value != ""
  }

  // ---------------------------------------------------------------------------
  // Math.max(...guests.map(g => g.envelopeNumber || 0)), 0 for no guests

  /** The largest envelope number in the list, 0 when it is empty. */
  function MaxEnvelope(s: seq<Guest>): (m: nat)
    ensures forall i :: 0 <= i < |s| ==> s[i].envelopeNumber <= m
    ensures s != [] ==> exists i :: 0 <= i < |s| && s[i].envelopeNumber == m
    ensures s == [] ==> m == 0
  {
    if s == [] then 0
    else
      var rest := MaxEnvelope(s[1..]);
      if s[0].envelopeNumber >= rest then s[0].envelopeNumber
      else
        assert exists i :: 1 <= i < |s| && s[i].envelopeNumber == rest by {
          var j :| 0 <= j < |s[1..]| && s[1..][j].envelopeNumber == rest;
          assert s[j + 1].envelopeNumber == rest;
        }
        rest
  }

  // ---------------------------------------------------------------------------
  // reduce((sum, g) => sum + g.amount, 0) and the meal-ticket variant

  /** `reduce((sum, g) => sum + g.amount, 0)`: no amount exceeds it, and it is 0 only when every amount is. */
  function SumAmount(s: seq<Guest>): (r: nat)
    ensures forall i :: 0 <= i < |s| ==> s[i].amount <= r
    ensures r == 0 <==> forall i :: 0 <= i < |s| ==> s[i].amount == 0
  {
    if s == [] then 0 else SumAmount(s[..|s| - 1]) + s[|s| - 1].amount
  }

  /** `reduce((sum, g) => sum + (g.mealTickets || 0), 0)`: without negative counts, it bounds every count. */
  function SumMealTickets(s: seq<Guest>): (r: int)
    ensures (forall i :: 0 <= i < |s| ==> s[i].mealTickets >= 0) ==>
              r >= 0 && forall i :: 0 <= i < |s| ==> s[i].mealTickets <= r
  {
    if s == [] then 0 else SumMealTickets(s[..|s| - 1]) + s[|s| - 1].mealTickets
  }

  /** Both sums split over a concatenation. */
  lemma {:induction false} SumsConcat(a: seq<Guest>, b: seq<Guest>)
    ensures SumAmount(a + b) == SumAmount(a) + SumAmount(b)
    ensures SumMealTickets(a + b) == SumMealTickets(a) + SumMealTickets(b)
  {
    if b != [] {
      assert (a + b)[..|a + b| - 1] == a + b[..|b| - 1];
      SumsConcat(a, b[..|b| - 1]);
    } else {
      assert a + b == a;
    }
  }

  /** Both sums depend only on which records there are, not on their order. */
  lemma {:induction false} SumsOfPermutation(a: seq<Guest>, b: seq<Guest>)
    requires multiset(a) == multiset(b)
    ensures SumAmount(a) == SumAmount(b)
    ensures SumMealTickets(a) == SumMealTickets(b)
    decreases |a|
  {
    if a != [] {
      var x := a[|a| - 1];
      assert x in multiset(b);
      var k :| 0 <= k < |b| && b[k] == x;
      TakeOutLast(a, b, k);
      SumsOfPermutation(a[..|a| - 1], b[..k] + b[k + 1..]);
      SpliceShape(a, b, k);
      SumsSpliced(a[..|a| - 1], b[..k], b[k], b[k + 1..]);
    } else {
      assert |b| == |multiset(b)| == 0;
    }
  }

  /** Taking the last record of a out of a, and its copy at k out of b, leaves equal multisets. */
  lemma TakeOutLast(a: seq<Guest>, b: seq<Guest>, k: nat)
    requires multiset(a) == multiset(b) && a != [] && k < |b| && b[k] == a[|a| - 1]
    ensures multiset(a[..|a| - 1]) == multiset(b[..k] + b[k + 1..])
  {
    var x := a[|a| - 1];
    assert a == a[..|a| - 1] + [x];
    assert b == b[..k] + [x] + b[k + 1..];
    assert multiset(a[..|a| - 1]) == multiset(a) - multiset{x};
    assert multiset(b[..k] + b[k + 1..]) == multiset(b) - multiset{x};
  }

  /**
   * A proof step of SumsOfPermutation, kept apart so that its sequence slicing is
   * not in the solver's context there: a is its front and its last record; b is the
   * records before k, the one at k, and those after.
   */
  lemma SpliceShape(a: seq<Guest>, b: seq<Guest>, k: nat)
    requires a != [] && k < |b|
    ensures a == a[..|a| - 1] + [a[|a| - 1]]
    ensures b == b[..k] + [b[k]] + b[k + 1..]
  {
  }

  /** Putting the same record back, at the end of one list and inside the other, keeps the sums equal. */
  lemma SumsSpliced(front: seq<Guest>, left: seq<Guest>, x: Guest, right: seq<Guest>)
    requires SumAmount(front) == SumAmount(left + right)
    requires SumMealTickets(front) == SumMealTickets(left + right)
    ensures SumAmount(front + [x]) == SumAmount(left + [x] + right)
    ensures SumMealTickets(front + [x]) == SumMealTickets(left + [x] + right)
  {
    SumsConcat(front, [x]);
    SumsConcat(left + [x], right);
    SumsConcat(left, [x]);
    SumsConcat(left, right);
  }

  // ---------------------------------------------------------------------------
  // [...guests].sort(compare): a stable sort by a numeric key

  /**
   * The two comparators the application sorts with: `a.envelopeNumber -
   * b.envelopeNumber` (register and CSV) and `b.timestamp - a.timestamp` (the
   * list view, newest first). Each is "ascending by Key".
   */
  datatype Order = ByEnvelopeNumber | NewestFirst

  function Key(o: Order, g: Guest): int {
    match o
    case ByEnvelopeNumber => g.envelopeNumber
    case NewestFirst => -g.timestamp
  }

  predicate SortedBy(o: Order, s: seq<Guest>) {
    forall i, j :: 0 <= i < j < |s| ==> Key(o, s[i]) <= Key(o, s[j])
  }

  /** Inserts g before the first element whose key is not smaller. */
  function Insert(o: Order, g: Guest, s: seq<Guest>): (r: seq<Guest>)
    requires SortedBy(o, s)
    ensures SortedBy(o, r)
    ensures multiset(r) == multiset(s) + multiset{g}
    ensures |r| == |s| + 1
  {
    if s == [] || Key(o, g) <= Key(o, s[0]) then
      ConsSorted(o, g, s);
      [g] + s
    else
      var rest := Insert(o, g, s[1..]);
      HeadBelowRest(o, g, s, rest);
      ConsSorted(o, s[0], rest);
      assert s == [s[0]] + s[1..];
      [s[0]] + rest
  }

  /** The head of a sorted list stays below the rest after g, which is above it, joins the rest. */
  lemma HeadBelowRest(o: Order, g: Guest, s: seq<Guest>, rest: seq<Guest>)
    requires SortedBy(o, s) && s != [] && Key(o, s[0]) < Key(o, g)
    requires multiset(rest) == multiset(s[1..]) + multiset{g}
    ensures forall k :: 0 <= k < |rest| ==> Key(o, s[0]) <= Key(o, rest[k])
  {
    forall k | 0 <= k < |rest|
      ensures Key(o, s[0]) <= Key(o, rest[k])
    {
      assert rest[k] in multiset(rest);
      if rest[k] != g {
        assert rest[k] in multiset(s[1..]);
        var m :| 0 <= m < |s[1..]| && s[1..][m] == rest[k];
        assert s[m + 1] == rest[k];
      }
    }
  }

  /** Putting an element no larger than any of a sorted list in front keeps it sorted. */
  lemma ConsSorted(o: Order, x: Guest, r: seq<Guest>)
    requires SortedBy(o, r)
    requires forall k :: 0 <= k < |r| ==> Key(o, x) <= Key(o, r[k])
    ensures SortedBy(o, [x] + r)
  {
    var t := [x] + r;
    forall i, j | 0 <= i < j < |t|
      ensures Key(o, t[i]) <= Key(o, t[j])
    {
      assert t[j] == r[j - 1];
      if i > 0 {
        assert t[i] == r[i - 1];
      }
    }
  }

  /** `[...s].sort(compare)`: the same records, ordered by the key. */
  function SortBy(o: Order, s: seq<Guest>): (r: seq<Guest>)
    ensures SortedBy(o, r)
    ensures multiset(r) == multiset(s)
    ensures |r| == |s|
  {
    if s == [] then []
    else
      assert s == [s[0]] + s[1..];
      Insert(o, s[0], SortBy(o, s[1..]))
  }
}
