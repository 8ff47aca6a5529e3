/**
 * `numberToKorean` of src/utils/currency.ts: a won amount written as a formal
 * Korean numeral phrase, "일금 …원정". The amount is read in groups of four
 * decimal digits from the least significant, named '', 만, 억, 조; inside a group
 * every non-zero digit is written with its place name '', 십, 백, 천, and zero
 * digits and zero groups are written as nothing. A digit 1 is written 일 on every
 * place, so 125000 reads "일금 일십이만오천원정".
 */
module Currency {
  import opened JsStrings

  const Units: seq<string> := ["", "만", "억", "조"]
  const Nums: seq<string> := ["", "일", "이", "삼", "사", "오", "육", "칠", "팔", "구"]
  const Places: seq<string> := ["", "십", "백", "천"]

  /** The places of a group (|Places|) and the groups an amount may have (|Units|). */
  const GroupDigits: nat := 4
  const GroupCount: nat := 4

  /** Four group names cover every amount below 10^16. */
  const Limit: nat := 10_000_000_000_000_000

  // ---------------------------------------------------------------------------
  // The phrase, place by place

  /** n with its k least significant base-10000 groups dropped (n / 10000^k). */
  function DropGroups(n: nat, k: nat): nat {
    if k == 0 then n else DropGroups(n / 10000, k - 1)
  }

  /** Group u of n, counting from the least significant (group 0 is n % 10000). */
  function GroupOf(n: nat, u: nat): (g: nat)
    ensures g < 10000
  {
    DropGroups(n, u) % 10000
  }

  /** A digit with its place name; a zero digit is written as nothing. */
  function DigitWord(d: nat, place: nat): string
    requires d < 10 && place < 4
  {
    if d == 0 then "" else Nums[d] + Places[place]
  }

  /** The words for places k-1 down to 0 of a group, most significant first. */
  function PlacesText(p: nat, k: nat): string
    requires k <= GroupDigits
  {
    if k == 0 then "" else DigitWord(DigitOf(p, k - 1), k - 1) + PlacesText(p, k - 1)
  }

  /** A group with its unit name; a zero group is written as nothing, unit included. */
  function GroupText(p: nat, u: nat): string
    requires p < 10000 && u < GroupCount
  {
    if p == 0 then "" else PlacesText(p, GroupDigits) + Units[u]
  }

  /** The words for groups u-1 down to 0 of n, most significant first. */
  function GroupsText(n: nat, u: nat): string
    requires u <= GroupCount
  {
    if u == 0 then "" else GroupText(GroupOf(n, u - 1), u - 1) + GroupsText(n, u - 1)
  }

  /** The phrase for an amount: "영원" for zero, otherwise "일금 " + groups + "원정". */
  function KoreanAmount(n: nat): (r: string)
    requires n < Limit
    ensures n == 0 <==> r == "영원"
    ensures n > 0 ==> |r| >= 5 && r[..3] == "일금 " && r[|r| - 2..] == "원정"
  {
    if n == 0 then "영원" else "일금 " + GroupsText(n, GroupCount) + "원정"
  }

  // ---------------------------------------------------------------------------
  // The loop of the source

  /** `numberToKorean`: the group loop with the digit loop inside it. */
  method NumberToKorean(number: nat) returns (s: string)
    requires number < Limit
    ensures s == KoreanAmount(number)
  {
    if number == 0 {
      return "영원";
    }
    var result := "";
    var unitIndex := 0;
    var currentNum := number;
    AllGroupsBelowLimit(number);
    while currentNum > 0
      invariant unitIndex <= GroupCount
      invariant currentNum == DropGroups(number, unitIndex)
      invariant result == GroupsText(number, unitIndex)
      decreases currentNum
    {
      assert unitIndex < GroupCount;
      var part := currentNum % 10000;
      GroupLoopStep(number, unitIndex, currentNum, result);
      if part > 0 {
        var partStr := PartText(part);
        result := partStr + Units[unitIndex] + result;
      }
      currentNum := currentNum / 10000;
      unitIndex := unitIndex + 1;
    }
    HighGroupsSilent(number, unitIndex);
    s := "일금 " + result + "원정";
  }

  /** The digit loop inside the group loop: the words of one non-zero group. */
  method PartText(part: nat) returns (partStr: string)
    requires 0 < part < 10000
    ensures partStr == PlacesText(part, GroupDigits)
  {
    partStr := "";
    var partStrNum := DecimalString(part);
    FourDigitsAtMost(part);
    for i := 0 to |partStrNum|
      invariant partStr == PlacesText(part, i)
    {
      DecimalDigitAt(part, i);
      var n := DigitValue(partStrNum[|partStrNum| - 1 - i]);
      assert n == DigitOf(part, i);
      var digit := i;
      if n > 0 {
        partStr := Nums[n] + Places[digit] + partStr;
      }
      PlacesTextStep(part, i, n);
    }
    HighPlacesSilent(part, |partStrNum|);
  }

  // ---------------------------------------------------------------------------
  // Lemmas

  /** Dropping one more group divides by 10000 once more. */
  lemma {:induction false} DropGroupsStep(n: nat, k: nat)
    ensures DropGroups(n, k + 1) == DropGroups(n, k) / 10000
  {
    if k > 0 {
      DropGroupsStep(n / 10000, k - 1);
    }
  }

  /** Writing one more group puts that group's words and unit name in front. */
  lemma GroupsTextStep(n: nat, u: nat)
    requires u < GroupCount
    ensures GroupsText(n, u + 1)
            == (if GroupOf(n, u) == 0 then "" else PlacesText(GroupOf(n, u), GroupDigits) + Units[u]) + GroupsText(n, u)
  {
  }

  /** One turn of the group loop, stated on the loop's own variables. */
  lemma GroupLoopStep(n: nat, u: nat, current: nat, result: string)
    requires u < GroupCount && current == DropGroups(n, u) && result == GroupsText(n, u)
    ensures DropGroups(n, u + 1) == current / 10000
    ensures current % 10000 == 0 ==> GroupsText(n, u + 1) == result
    ensures current % 10000 > 0 ==>
              GroupsText(n, u + 1) == PlacesText(current % 10000, GroupDigits) + Units[u] + result
  {
    GroupsTextStep(n, u);
    DropGroupsStep(n, u);
    if current % 10000 == 0 {
      assert GroupsText(n, u + 1) == "" + result;
    }
  }

  /** Writing one more place puts that digit's word in front. */
  lemma PlacesTextStep(p: nat, i: nat, n: nat)
    requires i < 4 && n == DigitOf(p, i)
    ensures PlacesText(p, i + 1) == (if n > 0 then Nums[n] + Places[i] else "") + PlacesText(p, i)
  {
  }

  /** Below the limit, nothing is left after four groups. */
  lemma AllGroupsBelowLimit(n: nat)
    requires n < Limit
    ensures DropGroups(n, GroupCount) == 0
  {
    var a, b, c := n / 10000, n / 10000 / 10000, n / 10000 / 10000 / 10000;
    assert a < 1_000_000_000_000;
    assert b < 100_000_000;
    assert c < 10000;
    assert DropGroups(n, 4) == DropGroups(a, 3) == DropGroups(b, 2) == DropGroups(c, 1) == DropGroups(0, 0);
  }

  /** Places at or above the length of the group's decimal text add no words. */
  lemma {:induction false} HighPlacesSilent(p: nat, k: nat)
    requires |DecimalString(p)| <= k <= GroupDigits
    ensures PlacesText(p, GroupDigits) == PlacesText(p, k)
    decreases GroupDigits - k
  {
    if k < GroupDigits {
      DigitAboveLength(p, k);
      HighPlacesSilent(p, k + 1);
      assert PlacesText(p, k + 1) == "" + PlacesText(p, k);
    }
  }

  /** Once nothing is left after u groups, the higher groups add no words. */
  lemma {:induction false} HighGroupsSilent(n: nat, u: nat)
    requires u <= GroupCount && DropGroups(n, u) == 0
    ensures GroupsText(n, GroupCount) == GroupsText(n, u)
    decreases GroupCount - u
  {
    if u < GroupCount {
      DropGroupsStep(n, u);
      HighGroupsSilent(n, u + 1);
      GroupsTextStep(n, u);
    }
  }

  /** An amount below 10^8 has a units group, a 만 group and nothing above. */
  lemma LowGroups(n: nat)
    requires n < 100_000_000
    ensures GroupOf(n, 0) == n % 10000 && GroupOf(n, 1) == n / 10000 && DropGroups(n, 2) == 0
  {
    var q := n / 10000;
    assert q < 10000;
    assert DropGroups(n, 1) == q;
    assert DropGroups(n, 2) == DropGroups(q, 1) == q / 10000 == 0;
  }

  /** An amount below 10^8 is written with its 만 group and its units group only. */
  lemma TwoGroupsOnly(n: nat)
    requires n < 100_000_000
    ensures GroupsText(n, GroupCount) == GroupText(n / 10000, 1) + GroupText(n % 10000, 0)
  {
    LowGroups(n);
    HighGroupsSilent(n, 2);
    assert GroupsText(n, 1) == GroupText(GroupOf(n, 0), 0) + "";
    assert GroupsText(n, 2) == GroupText(GroupOf(n, 1), 1) + GroupsText(n, 1);
  }

  /** Below 10^8 the phrase is the 만 group's words followed by the units group's words. */
  lemma BelowHundredMillion(n: nat)
    requires 0 < n < 100_000_000
    ensures KoreanAmount(n) == "일금 " + (GroupText(n / 10000, 1) + GroupText(n % 10000, 0)) + "원정"
  {
    TwoGroupsOnly(n);
  }

  /** 30000 is three 만 and nothing else: "일금 삼만원정". */
  lemma ThirtyThousand(n: nat)
    requires n == 30000
    ensures KoreanAmount(n) == "일금 삼만원정"
  {
    BelowHundredMillion(n);
    ThirtyThousandWords(n);
    ThirtyThousandPhrase(KoreanAmount(n), GroupText(n / 10000, 1) + GroupText(n % 10000, 0));
  }

  /**
   * A proof step of ThirtyThousand, kept apart so that the literal concatenation is
   * solved without the rest of that proof in context: the frame "일금 …원정" put
   * around "삼만".
   */
  lemma ThirtyThousandPhrase(phrase: string, words: string)
    requires phrase == "일금 " + words + "원정" && words == "삼만"
    ensures phrase == "일금 삼만원정"
  {
  }

  lemma ThirtyThousandWords(n: nat)
    requires n == 30000
    ensures GroupText(n / 10000, 1) + GroupText(n % 10000, 0) == "삼만"
  {
    var q := n / 10000;
    assert q == 3 && n % 10000 == 0;
    PlacesTextStep(q, 0, 3);
    PlacesTextStep(q, 1, 0);
    PlacesTextStep(q, 2, 0);
    PlacesTextStep(q, 3, 0);
  }

  /** 125000 keeps the 일 of the ten's place: "일금 일십이만오천원정". */
  lemma OneHundredTwentyFiveThousand(n: nat)
    requires n == 125000
    ensures KoreanAmount(n) == "일금 일십이만오천원정"
  {
    BelowHundredMillion(n);
    OneHundredTwentyFiveThousandWords(n);
    FormalPhrase(KoreanAmount(n), GroupText(n / 10000, 1) + GroupText(n % 10000, 0));
  }

  /**
   * A proof step of OneHundredTwentyFiveThousand, kept apart for the same reason:
   * the frame "일금 …원정" put around "일십이만오천".
   */
  lemma FormalPhrase(phrase: string, words: string)
    requires phrase == "일금 " + words + "원정" && words == "일십이만오천"
    ensures phrase == "일금 일십이만오천원정"
  {
  }

  lemma OneHundredTwentyFiveThousandWords(n: nat)
    requires n == 125000
    ensures GroupText(n / 10000, 1) + GroupText(n % 10000, 0) == "일십이만오천"
  {
    var q, p := n / 10000, n % 10000;
    assert q == 12 && p == 5000;
    PlacesTextStep(p, 0, 0);
    PlacesTextStep(p, 1, 0);
    PlacesTextStep(p, 2, 0);
    PlacesTextStep(p, 3, 5);
    PlacesTextStep(q, 0, 2);
    PlacesTextStep(q, 1, 1);
    PlacesTextStep(q, 2, 0);
    PlacesTextStep(q, 3, 0);
  }
}
