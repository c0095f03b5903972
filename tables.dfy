/** The three sqlite tables of the raid bot (raids, items, rolls) as records,
    and the read-only SQL helpers of raidbot.py as functions over them. */
module Tables {
  import opened StableSort

  datatype Option<T> = None | Some(value: T)

  /** The two values the bot ever stores in `rolls.roll_type`. */
  datatype RollType = PriorityRoll | StandardRoll

  /** The text stored for a roll type (the buttons' custom ids). */
  function TypeText(t: RollType): string
  {
    match t
    case PriorityRoll => "priority_roll"
    case StandardRoll => "standard_roll"
  }

  /** Bounds of `random.randint(1, 10000)`, both inclusive. */
  const MinRoll := 1
  const MaxRoll := 10000

  /** A row of `rolls`; the row's own AUTOINCREMENT id is never read and is left out. */
  datatype Roll = Roll(itemId: int, userId: int, rollType: RollType, value: int)

  datatype Winner = Winner(userId: int, name: string)

  /** A row of `items`; `contested` has the column default 1 (true) until a winner is written. */
  datatype Item = Item(id: int, raidId: int, name: string, winner: Option<Winner>, contested: bool)

  datatype RaidStatus = Active | Ended

  /** A row of `raids`; times are opaque clock readings. */
  datatype Raid = Raid(id: int, startTime: int, endTime: Option<int>, status: RaidStatus)

  /** A result row of `fetch_rolls`: (user_id, roll_type, random_roll_value). */
  datatype Fetched = Fetched(userId: int, rollType: RollType, value: int)

  // ---------------------------------------------------------------------
  // Text order, as sqlite's default BINARY collation compares ASCII strings

  predicate TextLess(a: string, b: string)
  {
    if a == [] then b != []
    else if b == [] then false
    else a[0] < b[0] || (a[0] == b[0] && TextLess(a[1..], b[1..]))
  }

  /** Position of a roll type in the text order of its stored value. */
  function TypeRank(t: RollType): int
  {
    if t == StandardRoll then 1 else 0
  }

  /** `TypeRank` orders the roll types exactly as their stored texts compare. */
  lemma TypeRankFollowsText(a: RollType, b: RollType)
    ensures TypeRank(a) < TypeRank(b) <==> TextLess(TypeText(a), TypeText(b))
  {
    assert TypeText(StandardRoll)[0] == 's' && TypeText(PriorityRoll)[0] == 'p';
    if a == b {
      TextLessIrreflexive(TypeText(a));
    }
  }

  lemma {:induction false} TextLessIrreflexive(a: string)
    ensures !TextLess(a, a)
  {
    if a != [] {
      TextLessIrreflexive(a[1..]);
    }
  }

  // ---------------------------------------------------------------------
  // fetch_rolls

  /** The WHERE clause of `fetch_rolls`. */
  predicate Listed(r: Roll, itemId: int)
  {
    r.itemId == itemId && TypeText(r.rollType) != "cancelled"
  }

  /** The rows `fetch_rolls` selects, projected, in table order. */
  function Select(rolls: seq<Roll>, itemId: int): (r: seq<Fetched>)
    ensures |r| <= |rolls|
  {
    if rolls == [] then []
    else
      var row := rolls[0];
      (if Listed(row, itemId) then [Fetched(row.userId, row.rollType, row.value)] else [])
      + Select(rolls[1..], itemId)
  }

  /** `ORDER BY roll_type DESC, random_roll_value DESC`. */
  function FetchKey(f: Fetched): Key
  {
    Key(-TypeRank(f.rollType), -f.value, 0)
  }

  /** `fetch_rolls(item_id)`. sqlite leaves the order of rows with equal sort
      keys open; this model keeps them in table order. */
  function FetchRolls(rolls: seq<Roll>, itemId: int): (r: seq<Fetched>)
    ensures multiset(r) == multiset(Select(rolls, itemId))
    ensures Sorted(r, FetchKey)
    ensures StableWith(r, Select(rolls, itemId), FetchKey)
  {
    var rows := Select(rolls, itemId);
    SortSorted(rows, FetchKey);
    SortStable(rows, FetchKey);
    Sort(rows, FetchKey)
  }

  /** The fetched rows, pair by pair: standard rolls before priority rolls
      (their texts in descending order), and within a type the higher value first. */
  lemma FetchOrder(rolls: seq<Roll>, itemId: int)
    ensures var r := FetchRolls(rolls, itemId);
      forall i, j :: 0 <= i < j < |r| ==>
        (r[i].rollType == StandardRoll && r[j].rollType == PriorityRoll) ||
        (r[i].rollType == r[j].rollType && r[i].value >= r[j].value)
  {
    var r := FetchRolls(rolls, itemId);
    forall i, j | 0 <= i < j < |r|
      ensures (r[i].rollType == StandardRoll && r[j].rollType == PriorityRoll) ||
              (r[i].rollType == r[j].rollType && r[i].value >= r[j].value)
    {
      assert !Less(FetchKey(r[j]), FetchKey(r[i]));
    }
  }

  /** The filter on 'cancelled' never drops a row: every row of the item is selected. */
  lemma {:induction false} SelectKeepsItemRows(rolls: seq<Roll>, itemId: int)
    ensures |Select(rolls, itemId)| == |RowsOf(rolls, itemId)|
    ensures forall f :: f in Select(rolls, itemId) <==>
      exists j :: 0 <= j < |rolls| && rolls[j].itemId == itemId && f == Fetched(rolls[j].userId, rolls[j].rollType, rolls[j].value)
  {
    if rolls != [] {
      SelectKeepsItemRows(rolls[1..], itemId);
      var r0 := rolls[0];
      assert TypeText(r0.rollType) != "cancelled" by {
        assert TypeText(r0.rollType)[0] != "cancelled"[0];
      }
      forall f | f in Select(rolls, itemId)
        ensures exists j :: 0 <= j < |rolls| && rolls[j].itemId == itemId && f == Fetched(rolls[j].userId, rolls[j].rollType, rolls[j].value)
      {
        if f !in Select(rolls[1..], itemId) {
          assert rolls[0].itemId == itemId && f == Fetched(r0.userId, r0.rollType, r0.value);
        } else {
          var j :| 0 <= j < |rolls[1..]| && rolls[1..][j].itemId == itemId && f == Fetched(rolls[1..][j].userId, rolls[1..][j].rollType, rolls[1..][j].value);
          assert rolls[j + 1] == rolls[1..][j];
        }
      }
      forall f | exists j :: 0 <= j < |rolls| && rolls[j].itemId == itemId && f == Fetched(rolls[j].userId, rolls[j].rollType, rolls[j].value)
        ensures f in Select(rolls, itemId)
      {
        var j :| 0 <= j < |rolls| && rolls[j].itemId == itemId && f == Fetched(rolls[j].userId, rolls[j].rollType, rolls[j].value);
        if j > 0 {
          assert rolls[1..][j - 1] == rolls[j];
        }
      }
    }
  }

  /** The rows of `rolls` that belong to `itemId`, in table order. */
  function RowsOf(rolls: seq<Roll>, itemId: int): seq<Roll>
  {
    if rolls == [] then []
    else (if rolls[0].itemId == itemId then [rolls[0]] else []) + RowsOf(rolls[1..], itemId)
  }

  /** Every fetched value was stored, so it lies in 1..10000 when the stored ones do. */
  lemma FetchedValuesInRange(rolls: seq<Roll>, itemId: int)
    requires forall j :: 0 <= j < |rolls| ==> MinRoll <= rolls[j].value <= MaxRoll
    ensures forall f :: f in FetchRolls(rolls, itemId) ==> MinRoll <= f.value <= MaxRoll
  {
    SelectKeepsItemRows(rolls, itemId);
    forall f | f in FetchRolls(rolls, itemId)
      ensures MinRoll <= f.value <= MaxRoll
    {
      assert f in multiset(Select(rolls, itemId));
      assert f in Select(rolls, itemId);
      var j :| 0 <= j < |rolls| && rolls[j].itemId == itemId && f == Fetched(rolls[j].userId, rolls[j].rollType, rolls[j].value);
    }
  }

  // ---------------------------------------------------------------------
  // count_wins and has_priority_win

  /** `user` holds a roll of type `t` on item `itemId` (the join condition). */
  predicate HasRoll(rolls: seq<Roll>, itemId: int, user: int, t: RollType)
  {
    exists j :: 0 <= j < |rolls| && rolls[j].itemId == itemId && rolls[j].userId == user && rolls[j].rollType == t
  }

  /** `it` passes the WHERE clause of `count_wins`. A NULL raid id (no current
      raid) matches nothing. */
  predicate CountsAsWin(it: Item, rolls: seq<Roll>, raid: Option<int>, user: int, t: RollType)
  {
    raid.Some? && it.raidId == raid.value &&
    it.winner.Some? && it.winner.value.userId == user &&
    it.contested &&
    HasRoll(rolls, it.id, user, t)
  }

  /** `count_wins(current_raid_id, user_id, roll_type)`: the number of item rows
      that count as a win. With unique item ids this is `COUNT(DISTINCT items.id)`
      (see `CountWinsIsDistinctItems`). */
  function CountWins(items: seq<Item>, rolls: seq<Roll>, raid: Option<int>, user: int, t: RollType): (r: int)
    ensures 0 <= r <= |items|
  {
    if items == [] then 0
    else (if CountsAsWin(items[0], rolls, raid, user, t) then 1 else 0) + CountWins(items[1..], rolls, raid, user, t)
  }

  /** The item ids `count_wins` counts, as a set. */
  ghost function WonItemIds(items: seq<Item>, rolls: seq<Roll>, raid: Option<int>, user: int, t: RollType): set<int>
  {
    set it | it in items && CountsAsWin(it, rolls, raid, user, t) :: it.id
  }

  /** Item ids are the table's primary key. */
  ghost predicate UniqueIds(items: seq<Item>)
  {
    forall i, j :: 0 <= i < j < |items| ==> items[i].id != items[j].id
  }

  lemma WonItemIdsCons(items: seq<Item>, rolls: seq<Roll>, raid: Option<int>, user: int, t: RollType)
    requires items != []
    ensures WonItemIds(items, rolls, raid, user, t) ==
      (if CountsAsWin(items[0], rolls, raid, user, t) then {items[0].id} else {}) + WonItemIds(items[1..], rolls, raid, user, t)
  {
    assert items == [items[0]] + items[1..];
  }

  lemma HeadIdNotWonLater(items: seq<Item>, rolls: seq<Roll>, raid: Option<int>, user: int, t: RollType)
    requires items != [] && UniqueIds(items)
    ensures items[0].id !in WonItemIds(items[1..], rolls, raid, user, t)
  {
    var rest := items[1..];
    forall it | it in rest
      ensures it.id != items[0].id
    {
      var j :| 0 <= j < |rest| && rest[j] == it;
      assert items[j + 1] == it;
    }
  }

  /** `CountWins` is the number of DISTINCT won item ids. */
  lemma {:induction false} CountWinsIsDistinctItems(items: seq<Item>, rolls: seq<Roll>, raid: Option<int>, user: int, t: RollType)
    requires UniqueIds(items)
    ensures CountWins(items, rolls, raid, user, t) == |WonItemIds(items, rolls, raid, user, t)|
  {
    if items != [] {
      CountWinsIsDistinctItems(items[1..], rolls, raid, user, t);
      WonItemIdsCons(items, rolls, raid, user, t);
      HeadIdNotWonLater(items, rolls, raid, user, t);
    }
  }

  /** With no current raid, `items.raid_id = NULL` matches no row: every count is 0. */
  lemma {:induction false} CountWinsWithoutRaid(items: seq<Item>, rolls: seq<Roll>, user: int, t: RollType)
    ensures CountWins(items, rolls, None, user, t) == 0
  {
    if items != [] {
      CountWinsWithoutRaid(items[1..], rolls, user, t);
    }
  }

  /** `has_priority_win(current_raid_id, user_id)`: the user is the winner of
      some item of the raid on which they hold a priority roll. Unlike
      `count_wins` there is no filter on `contested`. */
  predicate HasPriorityWin(items: seq<Item>, rolls: seq<Roll>, raid: Option<int>, user: int): (r: bool)
    ensures raid.None? ==> !r
    ensures r ==> |items| > 0 && |rolls| > 0
  {
    raid.Some? &&
    exists i :: 0 <= i < |items| &&
      items[i].raidId == raid.value &&
      items[i].winner.Some? && items[i].winner.value.userId == user &&
      HasRoll(rolls, items[i].id, user, PriorityRoll)
  }

  /** A counted priority win is a priority win. */
  lemma {:induction false} PriorityCountImpliesPriorityWin(items: seq<Item>, rolls: seq<Roll>, raid: Option<int>, user: int)
    requires CountWins(items, rolls, raid, user, PriorityRoll) > 0
    ensures HasPriorityWin(items, rolls, raid, user)
  {
    if CountsAsWin(items[0], rolls, raid, user, PriorityRoll) {
      assert 0 < |items|;
    } else {
      PriorityCountImpliesPriorityWin(items[1..], rolls, raid, user);
      var i :| 0 <= i < |items[1..]| && items[1..][i].raidId == raid.value &&
        items[1..][i].winner.Some? && items[1..][i].winner.value.userId == user &&
        HasRoll(rolls, items[1..][i].id, user, PriorityRoll);
      assert items[i + 1] == items[1..][i];
    }
  }

  /** The converse fails: a sole-claimant priority win is not counted by
      `count_wins`, yet it still triggers the priority downgrade. */
  lemma UncontestedPriorityWinStillDowngrades()
    ensures var items := [Item(1, 7, "Cloak", Some(Winner(42, "A")), false)];
            var rolls := [Roll(1, 42, PriorityRoll, 500)];
            HasPriorityWin(items, rolls, Some(7), 42) &&
            CountWins(items, rolls, Some(7), 42, PriorityRoll) == 0
  {
    var items := [Item(1, 7, "Cloak", Some(Winner(42, "A")), false)];
    var rolls := [Roll(1, 42, PriorityRoll, 500)];
    assert HasRoll(rolls, 1, 42, PriorityRoll) by { assert rolls[0].itemId == 1; }
    assert items[0].raidId == 7;
    assert !CountsAsWin(items[0], rolls, Some(7), 42, PriorityRoll);
    assert items[1..] == [];
  }

  // ---------------------------------------------------------------------
  // update_winner_in_db and the DELETE of the leave branch

  /** `UPDATE items SET winner_user_id, winner_username, contested WHERE id = item_id`. */
  function WithWinner(items: seq<Item>, itemId: int, w: Winner, contested: bool): (r: seq<Item>)
    ensures |r| == |items|
  {
    seq(|items|, k requires 0 <= k < |items| =>
      if items[k].id == itemId then items[k].(winner := Some(w), contested := contested) else items[k])
  }

  /** Resolving an as yet unresolved item with `contested = 0` changes no
      one's win count: a sole claimant's win never counts. */
  lemma {:induction false} UncontestedWinNotCounted(items: seq<Item>, rolls: seq<Roll>, itemId: int, w: Winner,
                                                   raid: Option<int>, user: int, t: RollType)
    requires forall k :: 0 <= k < |items| && items[k].id == itemId ==> items[k].winner == None
    ensures CountWins(WithWinner(items, itemId, w, false), rolls, raid, user, t) == CountWins(items, rolls, raid, user, t)
  {
    if items != [] {
      var after := WithWinner(items, itemId, w, false);
      assert after[1..] == WithWinner(items[1..], itemId, w, false);
      UncontestedWinNotCounted(items[1..], rolls, itemId, w, raid, user, t);
      assert CountsAsWin(after[0], rolls, raid, user, t) == CountsAsWin(items[0], rolls, raid, user, t);
    }
  }

  /** Writing `user` as a contested winner of an item of the raid on which they
      hold a roll of type `t` makes that item count: their count is at least 1. */
  lemma {:induction false} ContestedWinCounted(items: seq<Item>, rolls: seq<Roll>, itemId: int, name: string,
                                              raid: int, user: int, t: RollType)
    requires exists k :: 0 <= k < |items| && items[k].id == itemId && items[k].raidId == raid
    requires HasRoll(rolls, itemId, user, t)
    ensures CountWins(WithWinner(items, itemId, Winner(user, name), true), rolls, Some(raid), user, t) >= 1
  {
    var after := WithWinner(items, itemId, Winner(user, name), true);
    if items[0].id == itemId && items[0].raidId == raid {
      assert CountsAsWin(after[0], rolls, Some(raid), user, t);
    } else {
      var k :| 0 <= k < |items| && items[k].id == itemId && items[k].raidId == raid;
      assert items[1..][k - 1] == items[k];
      ContestedWinCounted(items[1..], rolls, itemId, name, raid, user, t);
      assert after[1..] == WithWinner(items[1..], itemId, Winner(user, name), true);
    }
  }

  /** `DELETE FROM rolls WHERE item_id = ? AND user_id = ?`: removes every roll
      of the user on the item and keeps every other row, in order. */
  function DeleteUserRolls(rolls: seq<Roll>, itemId: int, user: int): (r: seq<Roll>)
    ensures forall j :: 0 <= j < |r| ==> !(r[j].itemId == itemId && r[j].userId == user)
    ensures multiset(r) <= multiset(rolls)
    ensures forall x: Roll :: !(x.itemId == itemId && x.userId == user) ==> multiset(r)[x] == multiset(rolls)[x]
  {
    if rolls == [] then []
    else
      assert rolls == [rolls[0]] + rolls[1..];
      var rest := DeleteUserRolls(rolls[1..], itemId, user);
      if rolls[0].itemId == itemId && rolls[0].userId == user then rest else [rolls[0]] + rest
  }

  /** How many rows of `rolls` belong to `user` on item `itemId`. */
  function UserRowCount(rolls: seq<Roll>, itemId: int, user: int): (n: nat)
    ensures n == 0 <==> forall j :: 0 <= j < |rolls| ==> !(rolls[j].itemId == itemId && rolls[j].userId == user)
  {
    if rolls == [] then 0
    else
      assert forall j :: 1 <= j < |rolls| ==> rolls[j] == rolls[1..][j - 1];
      (if rolls[0].itemId == itemId && rolls[0].userId == user then 1 else 0) + UserRowCount(rolls[1..], itemId, user)
  }

  lemma {:induction false} UserRowCountAppend(rolls: seq<Roll>, r: Roll, itemId: int, user: int)
    ensures UserRowCount(rolls + [r], itemId, user) ==
            UserRowCount(rolls, itemId, user) + (if r.itemId == itemId && r.userId == user then 1 else 0)
  {
    if rolls == [] {
      assert [r][1..] == [];
    } else {
      assert (rolls + [r])[1..] == rolls[1..] + [r];
      UserRowCountAppend(rolls[1..], r, itemId, user);
    }
  }

  /** Deleting one user's rolls on an item leaves every other user's count on that item as it was. */
  lemma {:induction false} UserRowCountDelete(rolls: seq<Roll>, itemId: int, user: int, other: int)
    requires other != user
    ensures UserRowCount(DeleteUserRolls(rolls, itemId, user), itemId, other) == UserRowCount(rolls, itemId, other)
  {
    if rolls != [] {
      UserRowCountDelete(rolls[1..], itemId, user, other);
      var rest := DeleteUserRolls(rolls[1..], itemId, user);
      if !(rolls[0].itemId == itemId && rolls[0].userId == user) {
        assert ([rolls[0]] + rest)[1..] == rest;
      }
    }
  }

  /** A winner update renames nothing: `fetch_item_name` answers as before. */
  lemma {:induction false} WithWinnerKeepsName(items: seq<Item>, itemId: int, w: Winner, contested: bool)
    ensures FetchItemName(WithWinner(items, itemId, w, contested), itemId) == FetchItemName(items, itemId)
  {
    if items != [] {
      var after := WithWinner(items, itemId, w, contested);
      assert after[1..] == WithWinner(items[1..], itemId, w, contested);
      WithWinnerKeepsName(items[1..], itemId, w, contested);
    }
  }

  /** Deleting a user's rolls on one item leaves every count on any other item unchanged. */
  lemma {:induction false} UserRowCountDeleteOtherItem(rolls: seq<Roll>, itemId: int, user: int, otherItem: int, other: int)
    requires otherItem != itemId
    ensures UserRowCount(DeleteUserRolls(rolls, itemId, user), otherItem, other) == UserRowCount(rolls, otherItem, other)
  {
    if rolls != [] {
      UserRowCountDeleteOtherItem(rolls[1..], itemId, user, otherItem, other);
      var rest := DeleteUserRolls(rolls[1..], itemId, user);
      if !(rolls[0].itemId == itemId && rolls[0].userId == user) {
        assert ([rolls[0]] + rest)[1..] == rest;
      }
    }
  }

  // ---------------------------------------------------------------------
  // end_raid

  /** `UPDATE raids SET status = 'ended', end_time = now WHERE id = raid_id`. */
  function WithRaidEnded(raids: seq<Raid>, raidId: int, now: int): (r: seq<Raid>)
    ensures |r| == |raids|
  {
    seq(|raids|, k requires 0 <= k < |raids| =>
      if raids[k].id == raidId then raids[k].(status := Ended, endTime := Some(now)) else raids[k])
  }

  // ---------------------------------------------------------------------
  // fetch_item_name

  /** `fetch_item_name(item_id)`: the name of the item row with that id, or None. */
  function FetchItemName(items: seq<Item>, itemId: int): (r: Option<string>)
    ensures r.None? <==> forall k :: 0 <= k < |items| ==> items[k].id != itemId
    ensures r.Some? ==> exists k :: 0 <= k < |items| && items[k].id == itemId && items[k].name == r.value
  {
    if items == [] then None
    else if items[0].id == itemId then Some(items[0].name)
    else
      var r := FetchItemName(items[1..], itemId);
      assert forall k :: 1 <= k < |items| ==> items[k] == items[1..][k - 1];
      r
  }
}
