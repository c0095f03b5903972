/** The ranking of `end_roll` and of the override view (`WinnerSelect.callback`):
    each fetched roll is given its owner's win count, then the list is sorted
    stably by `(roll_type == 'Standard', win_count, -random_roll_value)`. */
module Ranking {
  import opened StableSort
  import opened Tables

  /** A row of `rolls_with_wins`; the display name is an opaque input and is left out. */
  datatype Entry = Entry(userId: int, rollType: RollType, value: int, winCount: int)

  /** The first component of the ranking key, a comparison with the text 'Standard'. */
  predicate StandardFlag(t: RollType)
  {
    TypeText(t) == "Standard"
  }

  /** The ranking key as written. */
  function RankKey(e: Entry): Key
  {
    Key(if StandardFlag(e.rollType) then 1 else 0, e.winCount, -e.value)
  }

  /** The order the comment beside the sort describes: priority rolls first. */
  function IntendedKey(e: Entry): Key
  {
    Key(if e.rollType == PriorityRoll then 0 else 1, e.winCount, -e.value)
  }

  /** No stored roll type equals 'Standard', so the first key component is constant. */
  lemma StandardFlagNeverSet(t: RollType)
    ensures !StandardFlag(t)
  {
    assert TypeText(t)[0] != "Standard"[0];
  }

  /** The roll type has no influence on the rank: only wins and the value do. */
  lemma RankIgnoresType(e: Entry, t: RollType)
    ensures RankKey(e.(rollType := t)) == RankKey(e) == Key(0, e.winCount, -e.value)
  {
    StandardFlagNeverSet(t);
    StandardFlagNeverSet(e.rollType);
  }

  /** The win count shown beside a fetched roll: `count_wins` for its owner and
      type, minus one for the user just chosen by an override. */
  function ShownWins(items: seq<Item>, rolls: seq<Roll>, raid: Option<int>, f: Fetched, chosen: Option<int>): int
  {
    CountWins(items, rolls, raid, f.userId, f.rollType) - (if chosen == Some(f.userId) then 1 else 0)
  }

  /** The fetched rolls, in fetch order, each with its shown win count. */
  function Annotate(fetched: seq<Fetched>, items: seq<Item>, rolls: seq<Roll>, raid: Option<int>, chosen: Option<int>): (r: seq<Entry>)
    ensures |r| == |fetched|
  {
    seq(|fetched|, k requires 0 <= k < |fetched| =>
      Entry(fetched[k].userId, fetched[k].rollType, fetched[k].value, ShownWins(items, rolls, raid, fetched[k], chosen)))
  }

  /** `ranked` is `base` reordered by the ranking key, equal keys in base order. */
  ghost predicate IsRanking(ranked: seq<Entry>, base: seq<Entry>)
  {
    multiset(ranked) == multiset(base) && Sorted(ranked, RankKey) && StableWith(ranked, base, RankKey)
  }

  /** The enrichment loop and the sort of `end_roll` (chosen = None) and of
      `WinnerSelect.callback` (chosen = the selected user). */
  method RankRolls(fetched: seq<Fetched>, items: seq<Item>, rolls: seq<Roll>, raid: Option<int>, chosen: Option<int>)
    returns (ranked: seq<Entry>)
    ensures IsRanking(ranked, Annotate(fetched, items, rolls, raid, chosen))
  {
    var withWins: seq<Entry> := [];
    var i := 0;
    while i < |fetched|
      invariant 0 <= i <= |fetched|
      invariant withWins == Annotate(fetched[..i], items, rolls, raid, chosen)
    {
      var f := fetched[i];
      var wins := CountWins(items, rolls, raid, f.userId, f.rollType);
      var shown := if chosen == Some(f.userId) then wins - 1 else wins;
      withWins := withWins + [Entry(f.userId, f.rollType, f.value, shown)];
      i := i + 1;
      assert fetched[..i][..i - 1] == fetched[..i - 1];
    }
    assert fetched[..i] == fetched;
    SortSorted(withWins, RankKey);
    SortStable(withWins, RankKey);
    ranked := Sort(withWins, RankKey);
  }

  /** Ranking is deterministic: a claim list has exactly one ranking. */
  lemma RankingUnique(r1: seq<Entry>, r2: seq<Entry>, base: seq<Entry>)
    requires IsRanking(r1, base) && IsRanking(r2, base)
    ensures r1 == r2
  {
    assert StableWith(r1, r2, RankKey) by {
      forall k ensures Matching(r1, RankKey, k) == Matching(r2, RankKey, k) {
        assert Matching(r1, RankKey, k) == Matching(base, RankKey, k);
      }
    }
    SortedUnique(r1, r2, RankKey);
  }

  /** The head of a ranking has the fewest wins, and among those the highest value;
      equal wins and value fall back to base order. */
  lemma HeadRanksFirst(ranked: seq<Entry>, base: seq<Entry>)
    requires IsRanking(ranked, base) && ranked != []
    ensures forall e :: e in base ==>
      ranked[0].winCount < e.winCount || (ranked[0].winCount == e.winCount && ranked[0].value >= e.value)
  {
    forall e | e in base
      ensures ranked[0].winCount < e.winCount || (ranked[0].winCount == e.winCount && ranked[0].value >= e.value)
    {
      assert e in multiset(ranked);
      var j :| 0 <= j < |ranked| && ranked[j] == e;
      RankIgnoresType(e, e.rollType);
      RankIgnoresType(ranked[0], ranked[0].rollType);
      assert j == 0 || !Less(RankKey(ranked[j]), RankKey(ranked[0]));
    }
  }

  /** The whole ranking, pair by pair: fewer wins first, and for equal wins
      the higher value first. */
  lemma RankingOrder(ranked: seq<Entry>, base: seq<Entry>)
    requires IsRanking(ranked, base)
    ensures forall i, j :: 0 <= i < j < |ranked| ==>
      ranked[i].winCount < ranked[j].winCount ||
      (ranked[i].winCount == ranked[j].winCount && ranked[i].value >= ranked[j].value)
  {
    forall i, j | 0 <= i < j < |ranked|
      ensures ranked[i].winCount < ranked[j].winCount ||
              (ranked[i].winCount == ranked[j].winCount && ranked[i].value >= ranked[j].value)
    {
      RankIgnoresType(ranked[i], ranked[i].rollType);
      RankIgnoresType(ranked[j], ranked[j].rollType);
      assert !Less(RankKey(ranked[j]), RankKey(ranked[i]));
    }
  }

  /** After an override made while the item's raid is still the current raid,
      the chosen user's new contested win is counted for every roll type they
      hold on the item, so the shown count, one less, is never negative. */
  lemma ChosenShownWinsNonNegative(items: seq<Item>, rolls: seq<Roll>, itemId: int, name: string,
                                   raid: int, chosen: int, f: Fetched)
    requires exists k :: 0 <= k < |items| && items[k].id == itemId && items[k].raidId == raid
    requires f.userId == chosen && HasRoll(rolls, itemId, chosen, f.rollType)
    ensures ShownWins(WithWinner(items, itemId, Winner(chosen, name), true), rolls, Some(raid), f, Some(chosen)) >= 0
  {
    ContestedWinCounted(items, rolls, itemId, name, raid, chosen, f.rollType);
  }

  /** After an override made with no current raid (after `/endraid`), every
      count is 0, so the chosen user is shown with -1 wins. */
  lemma ChosenShownWinsWithoutRaid(items: seq<Item>, rolls: seq<Roll>, f: Fetched, chosen: int)
    requires f.userId == chosen
    ensures ShownWins(items, rolls, None, f, Some(chosen)) == -1
  {
    CountWinsWithoutRaid(items, rolls, chosen, f.rollType);
  }

  /** Item "Cloak" of raid 7, claimed by users 42 and 43, overridden to user 42
      once the raid has ended: user 42 is shown with -1 wins. */
  lemma OverrideAfterRaidEndShowsMinusOne()
    ensures ShownWins(WithWinner([Item(1, 7, "Cloak", None, true)], 1, Winner(42, "A"), true),
                      [Roll(1, 42, StandardRoll, 500), Roll(1, 43, StandardRoll, 100)],
                      None, Fetched(42, StandardRoll, 500), Some(42)) == -1
  {
    ChosenShownWinsWithoutRaid(WithWinner([Item(1, 7, "Cloak", None, true)], 1, Winner(42, "A"), true),
                               [Roll(1, 42, StandardRoll, 500), Roll(1, 43, StandardRoll, 100)],
                               Fetched(42, StandardRoll, 500), 42);
  }

  /** Item "Cloak" of raid 7, overridden to user 42 while a later raid 8 is
      current, in which user 42 already holds one counted standard win
      ("Ring"): the shown count is that raid-8 count minus one, here 0. */
  lemma OverrideInLaterRaidCountsThatRaid()
    ensures var items := WithWinner([Item(1, 7, "Cloak", None, true), Item(2, 8, "Ring", Some(Winner(42, "A")), true)],
                                    1, Winner(42, "A"), true);
            var rolls := [Roll(1, 42, StandardRoll, 500), Roll(1, 43, StandardRoll, 100), Roll(2, 42, StandardRoll, 7)];
            ShownWins(items, rolls, Some(8), Fetched(42, StandardRoll, 500), Some(42)) == 0
  {
    var items := WithWinner([Item(1, 7, "Cloak", None, true), Item(2, 8, "Ring", Some(Winner(42, "A")), true)],
                            1, Winner(42, "A"), true);
    var rolls := [Roll(1, 42, StandardRoll, 500), Roll(1, 43, StandardRoll, 100), Roll(2, 42, StandardRoll, 7)];
    assert HasRoll(rolls, 2, 42, StandardRoll) by { assert rolls[2].itemId == 2; }
    assert items[1..][1..] == [];
  }

  /** The two rolls on item "Cloak" in the Cloak scenario below. */
  function CloakRolls(): seq<Roll>
  {
    [Roll(1, 1, PriorityRoll, 500), Roll(1, 2, StandardRoll, 9000)]
  }

  /** `ORDER BY roll_type DESC` puts the standard roll first. */
  lemma CloakFetchOrder()
    ensures FetchRolls(CloakRolls(), 1) == [Fetched(2, StandardRoll, 9000), Fetched(1, PriorityRoll, 500)]
  {
    var rolls := CloakRolls();
    var p, s := Fetched(1, PriorityRoll, 500), Fetched(2, StandardRoll, 9000);
    assert Select(rolls[1..], 1) == [s] by {
      assert rolls[1..][1..] == [];
    }
    assert Select(rolls, 1) == [p, s];
    assert Sort([s], FetchKey) == [s] by {
      assert [s][1..] == [];
    }
    assert [p, s][1..] == [s];
    assert Insert(p, [s], FetchKey) == [s] + Insert(p, [], FetchKey);
  }

  lemma CloakAnnotated()
    ensures Annotate(FetchRolls(CloakRolls(), 1), [], CloakRolls(), Some(1), None) ==
            [Entry(2, StandardRoll, 9000, 0), Entry(1, PriorityRoll, 500, 0)]
  {
    CloakFetchOrder();
  }

  /** Item "Cloak": user 1 rolls priority (500), user 2 rolls standard (9000),
      neither has wins. As written, user 2 is ranked first; under the order the
      comment describes, user 1 would be. */
  lemma CloakRankedByValueNotTier()
    ensures var base := Annotate(FetchRolls(CloakRolls(), 1), [], CloakRolls(), Some(1), None);
            Sort(base, RankKey)[0].userId == 2 && Sort(base, IntendedKey)[0].userId == 1
  {
    var es, ep := Entry(2, StandardRoll, 9000, 0), Entry(1, PriorityRoll, 500, 0);
    CloakAnnotated();
    RankIgnoresType(es, es.rollType);
    RankIgnoresType(ep, ep.rollType);
    SortTwo(es, ep, RankKey);
    SortTwo(es, ep, IntendedKey);
  }
}
