/**
  The bounties page: a fixed list of bounties, a filter by status, the
  "completed of total" counter and the statistics panel (total awarded,
  completed count, unique winners, average prize).
 */
module Bounties {
  import opened Wrappers
  import opened Sequences

  /**
    A bounty, with the fields the page computes with. Status and difficulty
    are the strings the data carries, so a value outside the known ones
    reaches the colour switches' default branch; `winner` is absent on
    bounties nobody has won.
   */
  datatype Bounty = Bounty(id: string, prize: int, difficulty: string, status: string, winner: Option<string>)

  /** The sample bounties shown on the page. */
  const BountiesData: seq<Bounty> := [
    Bounty("1", 200, "INTERMEDIATE", "COMPLETED", Some("@Marot.js")),
    Bounty("2", 200, "ADVANCED", "COMPLETED", Some("@4kmal")),
    Bounty("3", 150, "ADVANCED", "COMPLETED", Some("@4kmal")),
    Bounty("4", 150, "INTERMEDIATE", "COMPLETED", Some("@name-iffat")),
    Bounty("5", 100, "BEGINNER", "COMPLETED", Some("@zafranudin_z"))]

  // ------------------------------------------------------------- filtering

  /** The page's filter: every bounty, or those of one status. */
  datatype StatusFilter = All | Only(status: string)

  /** The filter buttons, in page order. */
  const FilterButtons: seq<StatusFilter> := [All, Only("COMPLETED"), Only("OPEN"), Only("IN_PROGRESS")]

  /** The bounties of status `s`, in list order. */
  function WithStatus(bs: seq<Bounty>, s: string): (r: seq<Bounty>)
    ensures |r| <= |bs|
    ensures forall b :: b in r <==> b in bs && b.status == s
    ensures forall b :: multiset(r)[b] == if b.status == s then multiset(bs)[b] else 0
  {
    if bs == [] then []
    else
      assert bs == [bs[0]] + bs[1..];
      if bs[0].status == s then [bs[0]] + WithStatus(bs[1..], s)
      else WithStatus(bs[1..], s)
  }

  /** The bounties the page lists under filter `f`. */
  function FilterBounties(bs: seq<Bounty>, f: StatusFilter): (r: seq<Bounty>)
    ensures f == All ==> r == bs
    ensures f.Only? ==> r == WithStatus(bs, f.status)
  {
    match f
    case All => bs
    case Only(s) => WithStatus(bs, s)
  }

  /** A status filter keeps the list's order: its result is a subsequence of the list. */
  lemma {:induction false} WithStatusKeepsOrder(bs: seq<Bounty>, s: string)
    ensures IsSubsequence(WithStatus(bs, s), bs)
  {
    if bs != [] {
      var rest := WithStatus(bs[1..], s);
      WithStatusKeepsOrder(bs[1..], s);
      if bs[0].status != s {
        if rest != [] {
          assert rest[0] in rest;
        }
      } else {
        assert WithStatus(bs, s)[1..] == rest;
      }
    }
  }

  /** What the list section shows: the placeholder, or one card per bounty in order. */
  datatype ListView = Placeholder | Cards(cards: seq<Bounty>)

  function ListSection(filtered: seq<Bounty>): (r: ListView)
    ensures r == Placeholder <==> filtered == []
    ensures r.Cards? ==> r.cards == filtered
  {
    if |filtered| == 0 then Placeholder else Cards(filtered)
  }

  /** A filter button's caption: the status with its underscore shown as a space for IN_PROGRESS. */
  function ButtonLabel(f: StatusFilter): string {
    match f
    case All => "ALL"
    case Only(s) => if s == "IN_PROGRESS" then "IN PROGRESS" else s
  }

  /**
    The four buttons on the page's own data: each is captioned with its
    status (IN_PROGRESS as "IN PROGRESS"), ALL and COMPLETED list all five
    bounties as cards, and OPEN and IN PROGRESS show the "no bounties found"
    placeholder, since every listed bounty is completed.
   */
  lemma PageButtonViews(i: nat)
    requires i < |FilterButtons|
    ensures ButtonLabel(FilterButtons[i]) == ["ALL", "COMPLETED", "OPEN", "IN PROGRESS"][i]
    ensures ListSection(FilterBounties(BountiesData, FilterButtons[i])) == if i < 2 then Cards(BountiesData) else Placeholder
  {
    PageStatuses();
    if i == 1 {
      AllWithStatus(BountiesData, "COMPLETED");
    } else if i > 1 {
      NoneWithStatus(BountiesData, FilterButtons[i].status);
    }
  }

  /** A list in which no bounty has status `s` is emptied by that status filter. */
  lemma {:induction false} NoneWithStatus(bs: seq<Bounty>, s: string)
    requires forall i :: 0 <= i < |bs| ==> bs[i].status != s
    ensures WithStatus(bs, s) == []
  {
    if bs != [] {
      NoneWithStatus(bs[1..], s);
    }
  }

  // ------------------------------------------------------------ statistics

  /** `completedCount` */
  function CompletedCount(bs: seq<Bounty>): nat {
    |WithStatus(bs, "COMPLETED")|
  }

  /** The completed counter never exceeds the total, and the COMPLETED filter lists exactly that many bounties. */
  lemma CompletedAtMostTotal(bs: seq<Bounty>)
    ensures CompletedCount(bs) <= |bs|
    ensures |FilterBounties(bs, Only("COMPLETED"))| == CompletedCount(bs)
    ensures CompletedCount(bs) == 0 <==> forall b :: b in bs ==> b.status != "COMPLETED"
  {
    if CompletedCount(bs) != 0 {
      var c := WithStatus(bs, "COMPLETED");
      assert c[0] in c;
    }
  }

  /** The sum of the prizes of all bounties, whatever their status. */
  function TotalPrize(bs: seq<Bounty>): int {
    if bs == [] then 0 else bs[0].prize + TotalPrize(bs[1..])
  }

  /** The bounties whose status is not `s`. */
  function WithoutStatus(bs: seq<Bounty>, s: string): seq<Bounty> {
    if bs == [] then []
    else if bs[0].status != s then [bs[0]] + WithoutStatus(bs[1..], s)
    else WithoutStatus(bs[1..], s)
  }

  /** The total awarded counts the completed bounties and all the others too. */
  lemma {:induction false} TotalPrizeSplits(bs: seq<Bounty>, s: string)
    ensures TotalPrize(bs) == TotalPrize(WithStatus(bs, s)) + TotalPrize(WithoutStatus(bs, s))
  {
    if bs != [] {
      TotalPrizeSplits(bs[1..], s);
      if bs[0].status == s {
        assert ([bs[0]] + WithStatus(bs[1..], s))[1..] == WithStatus(bs[1..], s);
      } else {
        assert ([bs[0]] + WithoutStatus(bs[1..], s))[1..] == WithoutStatus(bs[1..], s);
      }
    }
  }

  /** A winner field that JavaScript treats as true: present and not empty. */
  predicate HasWinner(b: Bounty) {
    b.winner.Some? && b.winner.value != ""
  }

  /** The distinct winners, collected bounty by bounty. */
  function Winners(bs: seq<Bounty>): set<string> {
    if bs == [] then {}
    else (if HasWinner(bs[0]) then {bs[0].winner.value} else {}) + Winners(bs[1..])
  }

  /** The number of bounties that have a winner. */
  function WonCount(bs: seq<Bounty>): nat {
    if bs == [] then 0 else (if HasWinner(bs[0]) then 1 else 0) + WonCount(bs[1..])
  }

  /** "Unique winners" */
  function UniqueWinners(bs: seq<Bounty>): nat {
    |Winners(bs)|
  }

  /**
    A name is among the winners exactly when some bounty names it as a
    non-empty winner, and there are never more winners than won bounties.
   */
  lemma {:induction false} WinnersCharacterised(bs: seq<Bounty>)
    ensures forall w :: w in Winners(bs) <==> exists b :: b in bs && HasWinner(b) && b.winner.value == w
    ensures UniqueWinners(bs) <= WonCount(bs) <= |bs|
  {
    if bs != [] {
      WinnersCharacterised(bs[1..]);
      forall w | w in Winners(bs)
        ensures exists b :: b in bs && HasWinner(b) && b.winner.value == w
      {
        if HasWinner(bs[0]) && w == bs[0].winner.value {
          assert bs[0] in bs;
        } else {
          var b :| b in bs[1..] && HasWinner(b) && b.winner.value == w;
          assert b in bs;
        }
      }
      forall w | exists b :: b in bs && HasWinner(b) && b.winner.value == w
        ensures w in Winners(bs)
      {
        var b :| b in bs && HasWinner(b) && b.winner.value == w;
        if b != bs[0] {
          assert b in bs[1..];
        }
      }
      var head: set<string> := if HasWinner(bs[0]) then {bs[0].winner.value} else {};
      assert |head + Winners(bs[1..])| <= |head| + |Winners(bs[1..])|;
    }
  }

  /** What `Math.round(total / completed)` yields in JavaScript, division by zero included. */
  datatype Average = Rounded(value: int) | PositiveInfinity | NegativeInfinity | NotANumber

  /** `Math.round(t / c)` for a positive `c`: the nearest integer, halves rounded up. */
  function RoundDiv(t: int, c: int): (r: int)
    requires c > 0
    ensures -c <= 2 * (t - r * c) < c
  {
    var q := (2 * t + c) / (2 * c);
    assert 2 * t + c == (2 * c) * q + (2 * t + c) % (2 * c);
    q
  }

  /** Multiples of `c` that differ are at least `c` apart. */
  lemma {:induction false} MulGap(a: int, b: int, c: int)
    requires a < b && c > 0
    ensures a * c + c <= b * c
    decreases b - a
  {
    assert b * c == (b - 1) * c + c;
    if a < b - 1 {
      MulGap(a, b - 1, c);
    }
  }

  /** Only one integer is within half of `t / c` in the sense `RoundDiv` promises. */
  lemma RoundDivUnique(t: int, c: int, r: int)
    requires c > 0 && -c <= 2 * (t - r * c) < c
    ensures r == RoundDiv(t, c)
  {
    var q := RoundDiv(t, c);
    if r > q {
      MulGap(q, r, c);
    } else if r < q {
      MulGap(r, q, c);
    }
  }

  /**
    The average prize as the page computes it: the total of all prizes
    divided by the completed count and rounded, with JavaScript's results
    for a zero count.
   */
  function AveragePrize(bs: seq<Bounty>): (r: Average)
    ensures CompletedCount(bs) > 0 ==> r == Rounded(RoundDiv(TotalPrize(bs), CompletedCount(bs)))
    ensures CompletedCount(bs) == 0 ==> !r.Rounded?
  {
    var total, count := TotalPrize(bs), CompletedCount(bs);
    if count > 0 then Rounded(RoundDiv(total, count))
    else if total > 0 then PositiveInfinity
    else if total < 0 then NegativeInfinity
    else NotANumber
  }

  /** The average with the zero count guarded: an error instead of a non-number. */
  function GuardedAveragePrize(bs: seq<Bounty>): (r: Result<int, string>)
    ensures r.Err? <==> CompletedCount(bs) == 0
    ensures r.Ok? ==> r.value == RoundDiv(TotalPrize(bs), CompletedCount(bs))
  {
    var count := CompletedCount(bs);
    if count == 0 then Err("no completed bounties") else Ok(RoundDiv(TotalPrize(bs), count))
  }

  /** With no completed bounty the page's average is not a number at all; the guarded one reports the error. */
  lemma AverageUnguarded()
    ensures AveragePrize([]) == NotANumber
    ensures AveragePrize([Bounty("6", 100, "BEGINNER", "OPEN", None)]) == PositiveInfinity
    ensures GuardedAveragePrize([]).Err?
  {
    var open := Bounty("6", 100, "BEGINNER", "OPEN", None);
    assert WithStatus([open], "COMPLETED") == [];
  }

  /** On the page's own data every one of the five bounties is completed. */
  lemma PageCompleted()
    ensures CompletedCount(BountiesData) == 5 && |BountiesData| == 5
  {
    PageStatuses();
    AllWithStatus(BountiesData, "COMPLETED");
  }

  /** Each bounty on the page carries the COMPLETED status. */
  lemma PageStatuses()
    ensures |BountiesData| == 5
    ensures forall i :: 0 <= i < |BountiesData| ==> BountiesData[i].status == "COMPLETED"
  {
  }

  /** A list whose bounties all have status `s` is kept whole by that status filter. */
  lemma {:induction false} AllWithStatus(bs: seq<Bounty>, s: string)
    requires forall i :: 0 <= i < |bs| ==> bs[i].status == s
    ensures WithStatus(bs, s) == bs
  {
    if bs != [] {
      AllWithStatus(bs[1..], s);
      assert [bs[0]] + bs[1..] == bs;
    }
  }

  /** On the page's own data RM 800 is awarded, an average of 160 per completed bounty. */
  lemma PageAverage()
    ensures TotalPrize(BountiesData) == 800
    ensures AveragePrize(BountiesData) == Rounded(160)
  {
    PageCompleted();
    PageTotal();
    RoundDivUnique(800, 5, 160);
  }

  /** The five prizes add up to 800. */
  lemma PageTotal()
    ensures TotalPrize(BountiesData) == 800
  {
    var d := BountiesData;
    assert TotalPrize(d[4..]) == 100;
    assert TotalPrize(d[2..]) == 400;
  }

  /** On the page's own data four different people won, one of them twice. */
  lemma PageWinners()
    ensures UniqueWinners(BountiesData) == 4
  {
    var d := BountiesData;
    assert Winners(d[4..]) == {"@zafranudin_z"};
    assert Winners(d[3..]) == {"@name-iffat", "@zafranudin_z"};
    assert Winners(d[2..]) == {"@4kmal", "@name-iffat", "@zafranudin_z"};
    assert Winners(d[1..]) == Winners(d[2..]);
    assert Winners(d) == {"@Marot.js"} + Winners(d[2..]);
  }

  // --------------------------------------------------------------- colours

  function DifficultyColor(difficulty: string): string {
    match difficulty
    case "BEGINNER" => "border-emerald-500 text-emerald-500"
    case "INTERMEDIATE" => "border-amber-500 text-amber-500"
    case "ADVANCED" => "border-red-500 text-red-500"
    case _ => "border-zinc-500 text-zinc-500"
  }

  function StatusColor(status: string): string {
    match status
    case "COMPLETED" => "border-zinc-600 text-zinc-400"
    case "OPEN" => "border-emerald-500 text-emerald-500"
    case "IN_PROGRESS" => "border-amber-500 text-amber-500"
    case _ => "border-zinc-500 text-zinc-500"
  }

  const Known: set<string> := {"BEGINNER", "INTERMEDIATE", "ADVANCED"}
  const KnownStatuses: set<string> := {"COMPLETED", "OPEN", "IN_PROGRESS"}

  /**
    Each known difficulty and status has a colour of its own, distinct from
    the fallback every other value gets; an open bounty is coloured like a
    beginner one and one in progress like an intermediate one.
   */
  lemma ColoursDistinguishKnownValues(d: string, s: string)
    ensures d !in Known <==> DifficultyColor(d) == "border-zinc-500 text-zinc-500"
    ensures s !in KnownStatuses <==> StatusColor(s) == "border-zinc-500 text-zinc-500"
    ensures d in Known && DifficultyColor(d) == DifficultyColor(s) ==> d == s
    ensures StatusColor("OPEN") == DifficultyColor("BEGINNER") && StatusColor("IN_PROGRESS") == DifficultyColor("INTERMEDIATE")
  {
  }
}
