/** The stateful part of raidbot.py: the tables and the process globals
    (`current_raid_id`, `roll_sessions`) held by one `Bot` object, and one
    `RollSession` per item roll with its in-memory claim dictionaries. */
module RaidBot {
  import opened Tables
  import opened Ranking

  /** The three buttons of a roll prompt, by their custom ids. */
  datatype Action = Claim(rollType: RollType) | Leave

  /** The ephemeral reply to a button press. */
  datatype Response =
    | Left                                  // "You have left the roll."
    | Downgraded(itemName: Option<string>)  // "You already won ... with a Priority Roll ..."
    | Submitted(rollName: string)           // "You successfully submitted a ..."
    | AlreadySubmitted                      // "You have already submitted a roll."

  datatype StartOutcome = AlreadyActive | Started(raidId: int)

  datatype EndOutcome = NoActiveRaid | RaidEnded

  datatype OverrideOutcome = Unauthorized | Updated(itemName: Option<string>, view: seq<Entry>)

  /** `get_roll_name`: the friendly name of a stored roll type; any other key is returned as it is. */
  function RollName(key: string): (r: string)
    ensures r == key <==> key != "priority_roll" && key != "standard_roll"
  {
    if key == "priority_roll" then "Priority Roll"
    else if key == "standard_roll" then "Standard Roll"
    else key
  }

  /** The label of the button that submits a roll of this type. */
  function ButtonLabel(t: RollType): string
  {
    match t
    case PriorityRoll => "Priority Roll"
    case StandardRoll => "Standard Roll"
  }

  /** Every stored roll type is shown under its button's label, and every
      other key (such as "leave") falls through unchanged. */
  lemma RollNameMatchesButtons(t: RollType, key: string)
    ensures RollName(TypeText(t)) == ButtonLabel(t)
    ensures key != TypeText(PriorityRoll) && key != TypeText(StandardRoll) ==> RollName(key) == key
  {
  }

  /** A priority claim by a user who already won a priority item in the current raid. */
  predicate Demoted(items: seq<Item>, rolls: seq<Roll>, raid: Option<int>, action: Action, user: int)
  {
    action == Claim(PriorityRoll) && HasPriorityWin(items, rolls, raid, user)
  }

  /** The claim dictionaries `p` (priority) and `s` (standard) of item `itemId`
      agree with the rolls table: each roll of the item belongs to a user in
      the dictionary of its type, and each user in a dictionary has exactly
      one roll on the item. */
  ghost predicate ClaimsMatchRows(itemId: int, p: map<int, string>, s: map<int, string>, rolls: seq<Roll>)
  {
    p.Keys !! s.Keys &&
    (forall j :: 0 <= j < |rolls| && rolls[j].itemId == itemId ==>
      (rolls[j].rollType == PriorityRoll && rolls[j].userId in p) ||
      (rolls[j].rollType == StandardRoll && rolls[j].userId in s)) &&
    (forall u :: u in p.Keys + s.Keys ==> UserRowCount(rolls, itemId, u) == 1)
  }

  /** A roll inserted for another item leaves this item's claims in agreement
      with the table: sessions on different items do not disturb each other. */
  lemma OtherItemInsertKeepsClaims(itemId: int, p: map<int, string>, s: map<int, string>, rolls: seq<Roll>, r: Roll)
    requires r.itemId != itemId
    requires ClaimsMatchRows(itemId, p, s, rolls)
    ensures ClaimsMatchRows(itemId, p, s, rolls + [r])
  {
    forall u | u in p.Keys + s.Keys
      ensures UserRowCount(rolls + [r], itemId, u) == 1
    {
      UserRowCountAppend(rolls, r, itemId, u);
    }
  }

  /** A leave on another item leaves this item's claims in agreement with the table. */
  lemma OtherItemDeleteKeepsClaims(itemId: int, p: map<int, string>, s: map<int, string>, rolls: seq<Roll>,
                                   otherItem: int, user: int)
    requires otherItem != itemId
    requires ClaimsMatchRows(itemId, p, s, rolls)
    ensures ClaimsMatchRows(itemId, p, s, DeleteUserRolls(rolls, otherItem, user))
  {
    var after := DeleteUserRolls(rolls, otherItem, user);
    forall j | 0 <= j < |after| && after[j].itemId == itemId
      ensures (after[j].rollType == PriorityRoll && after[j].userId in p) ||
              (after[j].rollType == StandardRoll && after[j].userId in s)
    {
      assert after[j] in multiset(rolls);
      var k :| 0 <= k < |rolls| && rolls[k] == after[j];
    }
    forall u | u in p.Keys + s.Keys
      ensures UserRowCount(after, itemId, u) == 1
    {
      UserRowCountDeleteOtherItem(rolls, otherItem, user, itemId, u);
    }
  }

  /** The database tables and the process-wide globals. */
  class Bot {
    var raids: seq<Raid>
    var items: seq<Item>
    var rolls: seq<Roll>
    /** The next AUTOINCREMENT ids of `raids` and `items`. */
    var nextRaidId: int
    var nextItemId: int
    var currentRaidId: Option<int>
    var rollSessions: map<int, RollSession>

    /** Ids are AUTOINCREMENT keys, stored values lie in 1..10000, every roll
        names an item already created, and the current raid is an active row. */
    ghost predicate Valid()
      reads this
    {
      0 < nextRaidId && 0 < nextItemId &&
      (forall i :: 0 <= i < |raids| ==> 0 < raids[i].id < nextRaidId) &&
      (forall i, j :: 0 <= i < j < |raids| ==> raids[i].id < raids[j].id) &&
      (forall i :: 0 <= i < |items| ==> 0 < items[i].id < nextItemId) &&
      (forall i, j :: 0 <= i < j < |items| ==> items[i].id < items[j].id) &&
      (forall j :: 0 <= j < |rolls| ==> rolls[j].itemId < nextItemId && MinRoll <= rolls[j].value <= MaxRoll) &&
      (currentRaidId.Some? ==>
        exists i :: 0 <= i < |raids| && raids[i].id == currentRaidId.value && raids[i].status == Active)
    }

    constructor ()
      ensures Valid()
      ensures raids == [] && items == [] && rolls == []
      ensures currentRaidId == None && rollSessions == map[]
    {
      raids, items, rolls := [], [], [];
      nextRaidId, nextItemId := 1, 1;
      currentRaidId := None;
      rollSessions := map[];
    }

    /** `create_raid(start_time)`: appends an active raid and returns its id. */
    method CreateRaid(now: int) returns (id: int)
      requires Valid()
      modifies this`raids, this`nextRaidId
      ensures Valid()
      ensures id == old(nextRaidId) && nextRaidId == id + 1
      ensures raids == old(raids) + [Raid(id, now, None, Active)]
    {
      id := nextRaidId;
      raids := raids + [Raid(id, now, None, Active)];
      nextRaidId := nextRaidId + 1;
      if currentRaidId.Some? {
        ghost var i :| 0 <= i < |old(raids)| && old(raids)[i].id == currentRaidId.value && old(raids)[i].status == Active;
        assert raids[i] == old(raids)[i];
      }
    }

    /** `start_new_raid`: creates a raid and makes it the current one. */
    method StartNewRaid(now: int) returns (id: int)
      requires Valid()
      modifies this`raids, this`nextRaidId, this`currentRaidId
      ensures Valid()
      ensures id == old(nextRaidId) && nextRaidId == id + 1
      ensures raids == old(raids) + [Raid(id, now, None, Active)]
      ensures currentRaidId == Some(id)
    {
      id := CreateRaid(now);
      currentRaidId := Some(id);
      assert raids[|raids| - 1].id == id;
    }

    /** The `/startraid` command: refused while a raid is active. */
    method StartRaid(now: int) returns (outcome: StartOutcome)
      requires Valid()
      modifies this`raids, this`nextRaidId, this`currentRaidId
      ensures Valid()
      ensures old(currentRaidId).Some? ==>
        outcome == AlreadyActive && raids == old(raids) &&
        nextRaidId == old(nextRaidId) && currentRaidId == old(currentRaidId)
      ensures old(currentRaidId).None? ==>
        outcome == Started(old(nextRaidId)) &&
        raids == old(raids) + [Raid(old(nextRaidId), now, None, Active)] &&
        nextRaidId == old(nextRaidId) + 1 && currentRaidId == Some(old(nextRaidId))
    {
      if currentRaidId.Some? {
        outcome := AlreadyActive;
      } else {
        var id := StartNewRaid(now);
        outcome := Started(id);
      }
    }

    /** The `/endraid` command: refused when no raid is active; otherwise marks
        the current raid ended at `now` and clears `current_raid_id`. */
    method EndRaid(now: int) returns (outcome: EndOutcome)
      requires Valid()
      modifies this`raids, this`currentRaidId
      ensures Valid()
      ensures old(currentRaidId).None? ==> outcome == NoActiveRaid && raids == old(raids) && currentRaidId == None
      ensures old(currentRaidId).Some? ==>
        outcome == RaidEnded &&
        raids == WithRaidEnded(old(raids), old(currentRaidId).value, now) && currentRaidId == None
    {
      if currentRaidId.None? {
        outcome := NoActiveRaid;
      } else {
        raids := WithRaidEnded(raids, currentRaidId.value, now);
        currentRaidId := None;
        outcome := RaidEnded;
      }
    }

    /** `create_item(raid_id, name)`: appends an item with no winner and the
        column default `contested = 1`. */
    method CreateItem(raidId: int, name: string) returns (id: int)
      requires Valid()
      modifies this`items, this`nextItemId
      ensures Valid()
      ensures id == old(nextItemId) && nextItemId == id + 1
      ensures items == old(items) + [Item(id, raidId, name, None, true)]
    {
      id := nextItemId;
      items := items + [Item(id, raidId, name, None, true)];
      nextItemId := nextItemId + 1;
    }

    /** `insert_roll(item_id, user_id, roll_type)`, with the random draw passed in as `value`. */
    method InsertRoll(itemId: int, userId: int, t: RollType, value: int)
      requires Valid()
      requires itemId < nextItemId  // rolls.item_id references items(id)
      requires MinRoll <= value <= MaxRoll
      modifies this`rolls
      ensures Valid()
      ensures rolls == old(rolls) + [Roll(itemId, userId, t, value)]
    {
      rolls := rolls + [Roll(itemId, userId, t, value)];
    }

    /** `update_winner_in_db(item_id, winner_id, winner_name, contested)`. */
    method UpdateWinner(itemId: int, w: Winner, contested: bool)
      requires Valid()
      modifies this`items
      ensures Valid()
      ensures items == WithWinner(old(items), itemId, w, contested)
    {
      items := WithWinner(items, itemId, w, contested);
    }

    /** The DELETE of the leave branch: removes every roll of `userId` on `itemId`. */
    method DeleteRolls(itemId: int, userId: int)
      requires Valid()
      modifies this`rolls
      ensures Valid()
      ensures rolls == DeleteUserRolls(old(rolls), itemId, userId)
    {
      rolls := DeleteUserRolls(rolls, itemId, userId);
      forall j | 0 <= j < |rolls|
        ensures rolls[j].itemId < nextItemId && MinRoll <= rolls[j].value <= MaxRoll
      {
        assert rolls[j] in multiset(old(rolls));
      }
    }

    /** The first step of `/roll`: a raid is started when none is active. */
    method EnsureRaid(now: int)
      requires Valid()
      modifies this`raids, this`nextRaidId, this`currentRaidId
      ensures Valid()
      ensures old(currentRaidId).None? ==>
        raids == old(raids) + [Raid(old(nextRaidId), now, None, Active)] && currentRaidId == Some(old(nextRaidId)) &&
        nextRaidId == old(nextRaidId) + 1
      ensures old(currentRaidId).Some? ==>
        raids == old(raids) && currentRaidId == old(currentRaidId) && nextRaidId == old(nextRaidId)
      ensures currentRaidId.Some?
    {
      if currentRaidId.None? {
        var _ := StartNewRaid(now);
      }
    }

    /** The `/roll` command: starts a raid if none is active, creates the item,
        and registers a new roll session under the interaction id. The timer
        that then closes the session is not modelled; see `RollSession.EndRoll`. */
    method RollItem(interactionId: int, itemName: string, initiator: int, now: int) returns (session: RollSession)
      requires Valid()
      modifies this`raids, this`nextRaidId, this`currentRaidId, this`items, this`nextItemId, this`rollSessions
      ensures Valid()
      ensures old(currentRaidId).None? ==>
        raids == old(raids) + [Raid(old(nextRaidId), now, None, Active)] && currentRaidId == Some(old(nextRaidId)) &&
        nextRaidId == old(nextRaidId) + 1
      ensures old(currentRaidId).Some? ==>
        raids == old(raids) && currentRaidId == old(currentRaidId) && nextRaidId == old(nextRaidId)
      ensures currentRaidId.Some?
      ensures items == old(items) + [Item(old(nextItemId), currentRaidId.value, itemName, None, true)]
      ensures nextItemId == old(nextItemId) + 1
      ensures fresh(session)
      ensures session.itemId == old(nextItemId) && session.itemName == itemName && session.initiator == initiator
      ensures session.priorityRolls == map[] && session.standardRolls == map[] && session.options == []
      ensures session.Tracks(this)
      ensures rollSessions == old(rollSessions)[interactionId := session]
      // the sessions already registered still track the store, each on an older item
      ensures forall other :: other in old(rollSessions.Values) && old(other.Tracks(this)) ==>
        other.Tracks(this) && other.itemId < session.itemId
    {
      EnsureRaid(now);
      var itemId := CreateItem(currentRaidId.value, itemName);
      session := new RollSession(itemId, itemName, initiator);
      rollSessions := rollSessions[interactionId := session];
    }
  }

  /** One item's roll: its claim dictionaries (user id to display name) and
      the winner options offered after it closed. */
  class RollSession {
    const itemId: int
    const itemName: string
    const initiator: int
    var priorityRolls: map<int, string>
    var standardRolls: map<int, string>
    var options: seq<int>

    constructor (itemId: int, itemName: string, initiator: int)
      ensures this.itemId == itemId && this.itemName == itemName && this.initiator == initiator
      ensures priorityRolls == map[] && standardRolls == map[] && options == []
    {
      this.itemId := itemId;
      this.itemName := itemName;
      this.initiator := initiator;
      priorityRolls := map[];
      standardRolls := map[];
      options := [];
    }

    /** The claim dictionaries agree with the rolls table: each roll of this
        item belongs to a user in the dictionary of its type, and each user in
        a dictionary has exactly one roll on the item. */
    ghost predicate Tracks(bot: Bot)
      reads this, bot
    {
      itemId < bot.nextItemId && ClaimsMatchRows(itemId, priorityRolls, standardRolls, bot.rolls)
    }

    /** At most one roll per user on a tracked item, and the dictionaries hold
        exactly the users who have one. */
    lemma OneRollPerUser(bot: Bot, user: int)
      requires Tracks(bot)
      ensures UserRowCount(bot.rolls, itemId, user) <= 1
      ensures UserRowCount(bot.rolls, itemId, user) == 1 <==> user in priorityRolls || user in standardRolls
    {
      if user !in priorityRolls && user !in standardRolls {
        forall j | 0 <= j < |bot.rolls|
          ensures !(bot.rolls[j].itemId == itemId && bot.rolls[j].userId == user)
        {
        }
      }
    }

    /** `handle_roll`: a press of Priority Roll, Standard Roll or Leave by
        `userId`. `value` stands for the random draw of `insert_roll`. */
    method HandleRoll(bot: Bot, action: Action, userId: int, displayName: string, value: int)
      returns (response: Response)
      requires bot.Valid() && Tracks(bot)
      requires MinRoll <= value <= MaxRoll
      modifies this`priorityRolls, this`standardRolls, bot`rolls
      ensures bot.Valid() && Tracks(bot)
      // leave: delete the user's rolls and forget them, whether or not they had one
      ensures action == Leave ==>
        response == Left &&
        bot.rolls == DeleteUserRolls(old(bot.rolls), itemId, userId) &&
        priorityRolls == old(priorityRolls) - {userId} && standardRolls == old(standardRolls) - {userId}
      // priority claim after a priority win: only the reply differs, nothing is recorded
      ensures Demoted(old(bot.items), old(bot.rolls), old(bot.currentRaidId), action, userId) ==>
        response == Downgraded(FetchItemName(old(bot.items), itemId)) &&
        bot.rolls == old(bot.rolls) &&
        priorityRolls == old(priorityRolls) && standardRolls == old(standardRolls)
      // duplicate claim: rejected, nothing changes
      ensures (action.Claim? && !Demoted(old(bot.items), old(bot.rolls), old(bot.currentRaidId), action, userId) &&
               (userId in old(priorityRolls) || userId in old(standardRolls))) ==>
        response == AlreadySubmitted &&
        bot.rolls == old(bot.rolls) &&
        priorityRolls == old(priorityRolls) && standardRolls == old(standardRolls)
      // first claim: one roll appended, the user added to the dictionary of its type
      ensures (action.Claim? && !Demoted(old(bot.items), old(bot.rolls), old(bot.currentRaidId), action, userId) &&
               userId !in old(priorityRolls) && userId !in old(standardRolls)) ==>
        response == Submitted(RollName(TypeText(action.rollType))) &&
        bot.rolls == old(bot.rolls) + [Roll(itemId, userId, action.rollType, value)] &&
        (action.rollType == PriorityRoll ==>
          priorityRolls == old(priorityRolls)[userId := displayName] && standardRolls == old(standardRolls)) &&
        (action.rollType == StandardRoll ==>
          standardRolls == old(standardRolls)[userId := displayName] && priorityRolls == old(priorityRolls))
      // every other registered session, on another item, still tracks the store
      ensures forall other :: other in bot.rollSessions.Values && other.itemId != itemId && old(other.Tracks(bot)) ==>
        other.Tracks(bot)
    {
      if action == Leave {
        LeaveRoll(bot, userId);
        response := Left;
      } else if Demoted(bot.items, bot.rolls, bot.currentRaidId, action, userId) {
        response := Downgraded(FetchItemName(bot.items, itemId));
      } else if userId !in priorityRolls && userId !in standardRolls {
        SubmitRoll(bot, action.rollType, userId, displayName, value);
        response := Submitted(RollName(TypeText(action.rollType)));
      } else {
        response := AlreadySubmitted;
      }
      forall other | other in bot.rollSessions.Values && other.itemId != itemId && old(other.Tracks(bot))
        ensures other.Tracks(bot)
      {
        if action == Leave {
          OtherItemDeleteKeepsClaims(other.itemId, other.priorityRolls, other.standardRolls, old(bot.rolls), itemId, userId);
        } else if bot.rolls != old(bot.rolls) {
          OtherItemInsertKeepsClaims(other.itemId, other.priorityRolls, other.standardRolls, old(bot.rolls),
                                     Roll(itemId, userId, action.rollType, value));
        }
      }
    }

    /** The leave branch of `handle_roll`. */
    method LeaveRoll(bot: Bot, userId: int)
      requires bot.Valid() && Tracks(bot)
      modifies this`priorityRolls, this`standardRolls, bot`rolls
      ensures bot.Valid() && Tracks(bot)
      ensures bot.rolls == DeleteUserRolls(old(bot.rolls), itemId, userId)
      ensures priorityRolls == old(priorityRolls) - {userId} && standardRolls == old(standardRolls) - {userId}
    {
      bot.DeleteRolls(itemId, userId);
      priorityRolls := priorityRolls - {userId};
      standardRolls := standardRolls - {userId};
      LeaveKeepsTracking(bot, old(bot.rolls), old(priorityRolls), old(standardRolls), userId);
    }

    /** The insertion branch of `handle_roll`, for a user not yet in either dictionary. */
    method SubmitRoll(bot: Bot, t: RollType, userId: int, displayName: string, value: int)
      requires bot.Valid() && Tracks(bot)
      requires userId !in priorityRolls && userId !in standardRolls
      requires MinRoll <= value <= MaxRoll
      modifies this`priorityRolls, this`standardRolls, bot`rolls
      ensures bot.Valid() && Tracks(bot)
      ensures bot.rolls == old(bot.rolls) + [Roll(itemId, userId, t, value)]
      ensures t == PriorityRoll ==>
        priorityRolls == old(priorityRolls)[userId := displayName] && standardRolls == old(standardRolls)
      ensures t == StandardRoll ==>
        standardRolls == old(standardRolls)[userId := displayName] && priorityRolls == old(priorityRolls)
    {
      OneRollPerUser(bot, userId);
      bot.InsertRoll(itemId, userId, t, value);
      if t == PriorityRoll {
        priorityRolls := priorityRolls[userId := displayName];
      } else {
        standardRolls := standardRolls[userId := displayName];
      }
      ClaimKeepsTracking(bot, old(bot.rolls), old(priorityRolls), old(standardRolls), userId, t, value);
    }

    lemma LeaveKeepsTracking(bot: Bot, before: seq<Roll>, p0: map<int, string>, s0: map<int, string>, userId: int)
      requires bot.rolls == DeleteUserRolls(before, itemId, userId)
      requires priorityRolls == p0 - {userId} && standardRolls == s0 - {userId}
      requires itemId < bot.nextItemId && p0.Keys !! s0.Keys
      requires forall j :: 0 <= j < |before| && before[j].itemId == itemId ==>
        (before[j].rollType == PriorityRoll && before[j].userId in p0) ||
        (before[j].rollType == StandardRoll && before[j].userId in s0)
      requires forall u :: u in p0.Keys + s0.Keys ==> UserRowCount(before, itemId, u) == 1
      ensures Tracks(bot)
    {
      forall j | 0 <= j < |bot.rolls| && bot.rolls[j].itemId == itemId
        ensures (bot.rolls[j].rollType == PriorityRoll && bot.rolls[j].userId in priorityRolls) ||
                (bot.rolls[j].rollType == StandardRoll && bot.rolls[j].userId in standardRolls)
      {
        var k :| 0 <= k < |before| && before[k] == bot.rolls[j];
      }
      forall u | u in priorityRolls.Keys + standardRolls.Keys
        ensures UserRowCount(bot.rolls, itemId, u) == 1
      {
        UserRowCountDelete(before, itemId, userId, u);
      }
    }

    lemma ClaimKeepsTracking(bot: Bot, before: seq<Roll>, p0: map<int, string>, s0: map<int, string>,
                             userId: int, t: RollType, value: int)
      requires bot.rolls == before + [Roll(itemId, userId, t, value)]
      requires userId !in p0 && userId !in s0
      requires t == PriorityRoll ==> priorityRolls.Keys == p0.Keys + {userId} && standardRolls == s0
      requires t == StandardRoll ==> standardRolls.Keys == s0.Keys + {userId} && priorityRolls == p0
      requires itemId < bot.nextItemId && p0.Keys !! s0.Keys
      requires forall j :: 0 <= j < |before| && before[j].itemId == itemId ==>
        (before[j].rollType == PriorityRoll && before[j].userId in p0) ||
        (before[j].rollType == StandardRoll && before[j].userId in s0)
      requires forall u :: u in p0.Keys + s0.Keys ==> UserRowCount(before, itemId, u) == 1
      requires UserRowCount(before, itemId, userId) == 0
      ensures Tracks(bot)
    {
      forall j | 0 <= j < |bot.rolls| && bot.rolls[j].itemId == itemId
        ensures (bot.rolls[j].rollType == PriorityRoll && bot.rolls[j].userId in priorityRolls) ||
                (bot.rolls[j].rollType == StandardRoll && bot.rolls[j].userId in standardRolls)
      {
        if j < |before| {
          assert bot.rolls[j] == before[j];
        }
      }
      forall u | u in priorityRolls.Keys + standardRolls.Keys
        ensures UserRowCount(bot.rolls, itemId, u) == 1
      {
        UserRowCountAppend(before, Roll(itemId, userId, t, value), itemId, u);
      }
    }

    /** `end_roll`: fetch the claims, rank them, and write the head as the
        default winner; `nameOf` stands for the display-name lookup. */
    method EndRoll(bot: Bot, nameOf: int -> string) returns (ranked: seq<Entry>, contested: bool)
      requires bot.Valid()
      modifies this`options, bot`items
      ensures bot.Valid()
      ensures var fetched := FetchRolls(old(bot.rolls), itemId);
        contested == (|fetched| != 1) &&
        |ranked| == |fetched| &&
        IsRanking(ranked, Annotate(fetched, old(bot.items), old(bot.rolls), old(bot.currentRaidId), None))
      ensures options == seq(|ranked|, k requires 0 <= k < |ranked| => ranked[k].userId)
      ensures ranked == [] ==> bot.items == old(bot.items)
      ensures ranked != [] ==>
        bot.items == WithWinner(old(bot.items), itemId, Winner(ranked[0].userId, nameOf(ranked[0].userId)), contested)
      // a sole claimant's win on an unresolved item changes no one's win count
      ensures !contested && (forall k :: 0 <= k < |old(bot.items)| && old(bot.items)[k].id == itemId ==> old(bot.items)[k].winner == None) ==>
        forall raid, u, t :: CountWins(bot.items, bot.rolls, raid, u, t) == CountWins(old(bot.items), old(bot.rolls), raid, u, t)
    {
      var fetched := FetchRolls(bot.rolls, itemId);
      contested := |fetched| != 1;
      ranked := RankRolls(fetched, bot.items, bot.rolls, bot.currentRaidId, None);
      assert |ranked| == |multiset(ranked)| == |fetched|;
      options := seq(|ranked|, k requires 0 <= k < |ranked| => ranked[k].userId);
      if ranked != [] {
        var w := Winner(ranked[0].userId, nameOf(ranked[0].userId));
        bot.UpdateWinner(itemId, w, contested);
        if !contested && forall k :: 0 <= k < |old(bot.items)| && old(bot.items)[k].id == itemId ==> old(bot.items)[k].winner == None {
          forall raid, u, t
            ensures CountWins(bot.items, bot.rolls, raid, u, t) == CountWins(old(bot.items), old(bot.rolls), raid, u, t)
          {
            UncontestedWinNotCounted(old(bot.items), bot.rolls, itemId, w, raid, u, t);
          }
        }
      }
    }

    /** `SelectWinnerButton.callback` then `WinnerSelect.callback`: only the
        initiator may override; the chosen user becomes the winner with
        `contested = 1` and the ranking is shown again, the chosen user's own
        win not counted in their shown total. */
    method OverrideWinner(bot: Bot, requester: int, chosen: int, chosenName: string) returns (outcome: OverrideOutcome)
      requires bot.Valid()
      modifies bot`items
      ensures bot.Valid()
      ensures requester != initiator ==> outcome == Unauthorized && bot.items == old(bot.items)
      ensures requester == initiator ==>
        bot.items == WithWinner(old(bot.items), itemId, Winner(chosen, chosenName), true) &&
        outcome.Updated? &&
        outcome.itemName == FetchItemName(old(bot.items), itemId) &&
        IsRanking(outcome.view, Annotate(FetchRolls(bot.rolls, itemId), bot.items, bot.rolls, bot.currentRaidId, Some(chosen)))
    {
      if requester != initiator {
        outcome := Unauthorized;
      } else {
        bot.UpdateWinner(itemId, Winner(chosen, chosenName), true);
        var name := FetchItemName(bot.items, itemId);
        WithWinnerKeepsName(old(bot.items), itemId, Winner(chosen, chosenName), true);
        var fetched := FetchRolls(bot.rolls, itemId);
        var view := RankRolls(fetched, bot.items, bot.rolls, bot.currentRaidId, Some(chosen));
        outcome := Updated(name, view);
      }
    }
  }
}
