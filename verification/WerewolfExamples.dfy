/** Two first passes of a real game that show where the rules surprise: the hunter's shot after
    the verdict, and the guard's save that costs the witch her potion. */
module WerewolfExamples {
  import opened Text
  import opened Dicts
  import opened WerewolfGame
  import opened WerewolfTheorems

  const PLAYER_NAMES := ["Planner", "Builder", "QAAgent", "Echo", "Poll", "OpenClaw"]
  const DECK: seq<Role> := [Werewolf, Werewolf, Seer, Guard, Witch, Hunter]

  ghost predicate GoodNames(names: seq<string>) {
    && |names| == 6
    && (forall i | 0 <= i < 6 :: names[i] != "" && names[i] != "none" && names[i] != "no_kill")
    && (forall i, j | 0 <= i < j < 6 :: names[i] != names[j])
  }

  lemma PlayersAreWellNamed()
    ensures GoodNames(PLAYER_NAMES)
  {
    var names := PLAYER_NAMES;
    assert |names[0]| == 7 && |names[1]| == 7 && |names[2]| == 7 && |names[3]| == 4 && |names[4]| == 4 && |names[5]| == 8;
    assert names[0][0] == 'P' && names[1][0] == 'B' && names[2][0] == 'Q' && names[3][0] == 'E' && names[4][0] == 'P';
    assert |"none"| == 4 && "none"[0] == 'n' && |"no_kill"| == 7 && "no_kill"[0] == 'n';
  }

  /** A new game in which the deck came out in its own order. */
  function Start(names: seq<string>): (g: Game)
    requires |names| == 6
  {
    InitGame(names, DECK)
  }

  /** The table of that game with these players alive. */
  ghost predicate Table(players: seq<Seat>, names: seq<string>, alive: set<nat>) {
    |players| == 6 && |names| == 6 && forall i: nat | i < 6 :: players[i] == Seat(names[i], DECK[i], i, i in alive)
  }

  lemma StartIsReal(names: seq<string>)
    requires |names| == 6
    ensures multiset(DECK) == multiset(RoleDeck(6))
    ensures RoundStart(Start(names)) && Start(names).round == 0 && !Start(names).saveUsed && !Start(names).killUsed
    ensures Table(Start(names).players, names, {0, 1, 2, 3, 4, 5})
  {
    hide RoundStart, CountWolves, Recount, Table;
    assert RoleDeck(6) == DECK;
    NewGameIsSound(names, DECK);
    StartTable(names);
  }

  lemma StartTable(names: seq<string>)
    requires |names| == 6
    ensures Table(Start(names).players, names, {0, 1, 2, 3, 4, 5})
  {
    hide CountWolves;
  }

  // ---- lookups at the table --------------------------------------------------------------

  lemma NameFound(players: seq<Seat>, names: seq<string>, alive: set<nat>, i: nat)
    requires Table(players, names, alive) && GoodNames(names) && i < 6
    ensures FindByName(players, names[i]) == Some(i)
    ensures LivingTarget(players, names[i]) == if i in alive then Some(i) else None
  {
  }

  lemma NobodyFound(players: seq<Seat>, names: seq<string>, alive: set<nat>)
    requires Table(players, names, alive) && GoodNames(names)
    ensures FindByName(players, "") == None && LivingTarget(players, "") == None
  {
  }

  lemma {:induction false} SelectShorter(players: seq<Seat>, keep: Seat -> bool)
    ensures |Select(players, keep)| <= |players|
  {
    if players != [] { SelectShorter(players[..|players| - 1], keep); }
  }

  lemma TwoKept(players: seq<Seat>, p: Seat, q: Seat)
    requires p in players && q in players && p.alive && q.alive && p != q
    ensures |Living(players)| >= 2
  {
    var living := Living(players);
    assert p in living && q in living;
    var i :| 0 <= i < |living| && living[i] == p;
    var j :| 0 <= j < |living| && living[j] == q;
    assert i != j;
  }

  // ---- unanimous votes --------------------------------------------------------------------

  ghost predicate Unanimous(votes: Votes, target: nat) {
    forall i | 0 <= i < |votes| :: votes[i].1 == target
  }

  lemma {:induction false} PutUnanimous(votes: Votes, voter: nat, target: nat)
    requires Unanimous(votes, target)
    ensures Unanimous(Put(votes, voter, target), target)
  {
    if votes != [] && votes[0].0 != voter {
      PutUnanimous(votes[1..], voter, target);
      var rest := Put(votes[1..], voter, target);
      forall i | 0 <= i < |rest| + 1 ensures ([votes[0]] + rest)[i].1 == target {
        if i > 0 { assert rest[i - 1].1 == target; }
      }
    }
  }

  function Everybody(name: string): (names: seq<string>)
    ensures |names| == 6 && forall k: nat | k < 6 :: NameAt(names, k) == name
  {
    seq(6, _ => name)
  }

  lemma {:induction false} PackUnanimous(players: seq<Seat>, wolves: seq<Seat>, name: string, target: nat)
    requires PreyNamed(players, name) == Some(target) && |wolves| <= 6
    ensures Unanimous(PackVotes(players, wolves, Everybody(name), []), target)
    ensures wolves != [] ==> PackVotes(players, wolves, Everybody(name), []) != []
  {
    hide Put, Everybody, PreyNamed, NameAt;
    if wolves != [] {
      var k := |wolves| - 1;
      PackUnanimous(players, wolves[..k], name, target);
      PutUnanimous(PackVotes(players, wolves[..k], Everybody(name), []), wolves[k].id, target);
    }
  }

  lemma {:induction false} BallotUnanimous(players: seq<Seat>, voters: seq<Seat>, name: string, target: nat)
    requires LivingTarget(players, name) == Some(target) && |Living(players)| > 1 && |voters| <= 6
    ensures Unanimous(BallotOf(players, voters, Everybody(name), []), target)
    ensures voters != [] ==> BallotOf(players, voters, Everybody(name), []) != []
  {
    hide Put, Everybody, LivingTarget, NameAt, Select;
    if voters != [] {
      var k := |voters| - 1;
      BallotUnanimous(players, voters[..k], name, target);
      PutUnanimous(BallotOf(players, voters[..k], Everybody(name), []), voters[k].id, target);
    }
  }

  lemma UnanimousLynch(votes: Votes, target: nat)
    requires votes != [] && Unanimous(votes, target)
    ensures LynchOf(Targets(votes)) == Some(target)
  {
    var targets := Targets(votes);
    assert targets[0] == target;
    assert forall y | y in targets :: y == target;
    assert forall y :: y in multiset(targets) <==> y in targets;
    LynchIsStrictPlurality(targets, target);
  }

  // ---- the night: the wolves take the witch while she poisons a wolf ------------------------------

  function WitchHunt(names: seq<string>, guardName: string): (c: NightChoices)
    requires |names| == 6
  {
    NightChoices(Everybody(names[4]), 0, [], 0, "", guardName, false, names[0])
  }

  lemma WitchAttacked(names: seq<string>, guardName: string)
    requires GoodNames(names)
    ensures WolfPhase(Start(names), WitchHunt(names, guardName)).nightAttacked == Some(4)
  {
    hide PackVotes, Everybody, Put, Select, MostVoted, FindByName, RoundStart, RoleDeck, LivingTarget, CountWolves;
    StartIsReal(names);
    var g := Start(names).(phase := NightWolves);
    var c := WitchHunt(names, guardName);
    var wolves := Wolves(g.players);
    NameFound(g.players, names, {0, 1, 2, 3, 4, 5}, 4);
    SelectShorter(g.players, LivingWolf);
    assert g.players[0] in wolves && g.players[4] in Prey(g.players);
    PackUnanimous(g.players, wolves, names[4], 4);
    var votes := WolvesVote(g, c).wolfVotes;
    assert votes == PackVotes(g.players, wolves, c.wolfNames, []);
    var victim := MostVoted([], Targets(votes));
    assert victim in Targets(votes);
  }

  /** What the night is decided to be; with "" for a name the guard protects nobody. */
  lemma NightDecided(names: seq<string>, guardName: string)
    requires GoodNames(names) && (guardName == "" || guardName == names[4])
    ensures var n := BeforeDawn(Start(names), WitchHunt(names, guardName));
            && n.nightAttacked == Some(4) && n.killTarget == Some(0) && n.saveTarget == None
            && n.guardTarget == if guardName == "" then None else Some(4)
  {
    hide WolfPhase, Select, FindByName, Everybody, LivingTarget, SeerLooks, RoundStart, RoleDeck, CountWolves;
    StartIsReal(names);
    WitchAttacked(names, guardName);
    var g, c := Start(names), WitchHunt(names, guardName);
    var players := g.players;
    NameFound(players, names, {0, 1, 2, 3, 4, 5}, 0);
    NameFound(players, names, {0, 1, 2, 3, 4, 5}, 4);
    NobodyFound(players, names, {0, 1, 2, 3, 4, 5});
    TwoKept(players, players[0], players[1]);
    assert players[3] in WithRole(players, Guard) && players[4] in WithRole(players, Witch);
  }

  /** The guard protects the witch, the wolves attack her, she does nothing, and her potion of
      saving is used up. */
  lemma GuardCanBurnSave(names: seq<string>) returns (c: NightChoices)
    requires GoodNames(names)
    ensures var n := BeforeDawn(Start(names), c);
            && RoundStart(Start(names)) && !Start(names).saveUsed
            && n.nightAttacked.Some? && n.guardTarget == n.nightAttacked && n.saveTarget == None
            && RunNight(Start(names), c).saveUsed
  {
    hide BeforeDawn, RunNight, RoundStart, WitchHunt;
    c := WitchHunt(names, names[4]);
    StartIsReal(names);
    NightDecided(names, names[4]);
    GuardBurnsSave(Start(names), c);
  }

  // ---- the day: the hunter is lynched and shoots the last wolf -------------------------------------

  function LastShot(names: seq<string>): (d: DayChoices)
    requires |names| == 6
  {
    DayChoices(Everybody(names[5]), 0, 0, names[1])
  }

  lemma TableSeat(players: seq<Seat>, names: seq<string>, alive: set<nat>, i: nat)
    requires Table(players, names, alive) && i < 6
    ensures |players| == 6 && |names| == 6 && players[i] == Seat(names[i], DECK[i], i, i in alive)
  {
  }

  lemma SeatAfterDeaths(before: seq<Seat>, after: seq<Seat>, i: nat)
    requires OnlyDeaths(before, after) && i < |before|
    ensures |after| == |before| && after[i] == before[i].(alive := after[i].alive)
  {
  }

  lemma NobodySaved(n: Game)
    requires n.nightAttacked.Some? && n.guardTarget == None && n.saveTarget == None
    ensures !VictimSaved(n)
  {
  }

  lemma DawnSeat(names: seq<string>, d: DayChoices, i: nat)
    requires GoodNames(names) && i < 6
    ensures |names| == 6
    ensures var dawn := RunNight(Start(names), WitchHunt(names, ""));
            |dawn.players| == 6 && dawn.players[i] == Seat(names[i], DECK[i], i, i != 0 && i != 4)
  {
    assert |names| == 6;
    hide *;
    var g, c := Start(names), WitchHunt(names, "");
    StartIsReal(names);
    TableSeat(g.players, names, {0, 1, 2, 3, 4, 5}, i);
    NightDecided(names, "");
    NobodySaved(BeforeDawn(g, c));
    PassKeepsLedger(g, PassChoices(c, d));
    SeatAfterDeaths(g.players, RunNight(g, c).players, i);
    NightDeaths(g, c, i);
  }

  lemma DawnTable(names: seq<string>, d: DayChoices)
    requires GoodNames(names)
    ensures |names| == 6
    ensures var dawn := RunNight(Start(names), WitchHunt(names, ""));
            && Table(dawn.players, names, {1, 2, 3, 5}) && Ledger(dawn) && dawn.winner == Nobody
            && dawn.round == 0 && dawn.hunterTarget == None && dawn.dayVotes == []
  {
    hide RunNight, Ledger, WitchHunt, BooksThroughPass, Pass, Start, RoundStart;
    var g, c := Start(names), WitchHunt(names, "");
    StartIsReal(names);
    PassKeepsLedger(g, PassChoices(c, d));
    FreshStart(g);
    DawnFacts(g, c);
    forall i: nat | i < 6
      ensures |RunNight(g, c).players| == 6 && RunNight(g, c).players[i] == Seat(names[i], DECK[i], i, i in {1, 2, 3, 5})
    {
      DawnSeat(names, d, i);
    }
  }

  lemma FreshStart(g: Game)
    requires RoundStart(g)
    ensures g.winner == Nobody && g.hunterTarget == None && g.dayVotes == []
  {
  }

  lemma DayVoted(dawn: Game, names: seq<string>)
    requires GoodNames(names) && Table(dawn.players, names, {1, 2, 3, 5}) && dawn.dayVotes == []
    ensures LynchOf(Targets(Ballot(dawn, LastShot(names)).dayVotes)) == Some(5)
  {
    hide BallotOf, Everybody, Select, LivingTarget, FindByName, LynchOf;
    var players := dawn.players;
    NameFound(players, names, {1, 2, 3, 5}, 5);
    TwoKept(players, players[1], players[5]);
    SelectShorter(players, (p: Seat) => p.alive);
    BallotUnanimous(players, Living(players), names[5], 5);
    UnanimousLynch(BallotOf(players, Living(players), Everybody(names[5]), []), 5);
  }

  lemma CountsOfSix(s: seq<Seat>)
    requires |s| == 6
    ensures CountAlive(s) == (if s[0].alive then 1 else 0) + (if s[1].alive then 1 else 0) + (if s[2].alive then 1 else 0)
                           + (if s[3].alive then 1 else 0) + (if s[4].alive then 1 else 0) + (if s[5].alive then 1 else 0)
    ensures CountWolves(s) == (if LivingWolf(s[0]) then 1 else 0) + (if LivingWolf(s[1]) then 1 else 0)
                            + (if LivingWolf(s[2]) then 1 else 0) + (if LivingWolf(s[3]) then 1 else 0)
                            + (if LivingWolf(s[4]) then 1 else 0) + (if LivingWolf(s[5]) then 1 else 0)
  {
    assert s[..6] == s && s[..6][..5] == s[..5] && s[..5][..4] == s[..4] && s[..4][..3] == s[..3];
    assert s[..3][..2] == s[..2] && s[..2][..1] == s[..1] && s[..1][..0] == [];
    assert CountAlive(s[..1]) == (if s[0].alive then 1 else 0) && CountWolves(s[..1]) == (if LivingWolf(s[0]) then 1 else 0);
    assert CountAlive(s[..2]) == CountAlive(s[..1]) + if s[1].alive then 1 else 0;
    assert CountAlive(s[..3]) == CountAlive(s[..2]) + if s[2].alive then 1 else 0;
    assert CountAlive(s[..4]) == CountAlive(s[..3]) + if s[3].alive then 1 else 0;
    assert CountAlive(s[..5]) == CountAlive(s[..4]) + if s[4].alive then 1 else 0;
    assert CountWolves(s[..2]) == CountWolves(s[..1]) + if LivingWolf(s[1]) then 1 else 0;
    assert CountWolves(s[..3]) == CountWolves(s[..2]) + if LivingWolf(s[2]) then 1 else 0;
    assert CountWolves(s[..4]) == CountWolves(s[..3]) + if LivingWolf(s[3]) then 1 else 0;
    assert CountWolves(s[..5]) == CountWolves(s[..4]) + if LivingWolf(s[4]) then 1 else 0;
  }

  lemma TableCounts(players: seq<Seat>, names: seq<string>, alive: set<nat>)
    requires Table(players, names, alive)
    ensures CountWolves(players) == (if 0 in alive then 1 else 0) + (if 1 in alive then 1 else 0)
    ensures CountAlive(players) == CountWolves(players) + (if 2 in alive then 1 else 0) + (if 3 in alive then 1 else 0)
                                 + (if 4 in alive then 1 else 0) + (if 5 in alive then 1 else 0)
  {
    hide CountWolves, CountAlive;
    CountsOfSix(players);
  }

  lemma TableAfterDeath(players: seq<Seat>, names: seq<string>, alive: set<nat>, i: nat)
    requires Table(players, names, alive) && i < 6
    ensures Table(KillAt(players, i), names, alive - {i})
    ensures FindById(players, i) == Some(i)
  {
  }

  /** The lynching leaves one wolf against two others: nobody has won. */
  lemma VerdictOpen(dawn: Game, names: seq<string>)
    requires GoodNames(names) && Table(dawn.players, names, {1, 2, 3, 5}) && Ledger(dawn)
    requires dawn.dayVotes == [] && dawn.hunterTarget == None && dawn.winner == Nobody
    ensures var after := AfterVote(dawn, LastShot(names));
            && Table(after.players, names, {1, 2, 3}) && after.lynched == Some(5)
            && after.winner == Nobody && after.phase == DayResolve && after.hunterTarget == None
            && after.round == dawn.round
  {
    hide Ledger, LynchOf, DayVotes, FindById, CountWolves, CountAlive, LastShot, KillAt;
    var ballot := Ballot(dawn, LastShot(names));
    DayVoted(dawn, names);
    LedgerFrame(dawn, ballot);
    LynchKeepsLedger(ballot);
    TableAfterDeath(dawn.players, names, {1, 2, 3, 5}, 5);
    assert {1, 2, 3, 5} - {5} == {1, 2, 3};
    LynchLeaves(ballot, names);
    var lynch := ResolveLynch(ballot);
    TableCounts(lynch.players, names, {1, 2, 3});
    LedgerCounts(lynch);
    assert AfterVote(dawn, LastShot(names)) == WerewolfGame.Judge(lynch);
  }

  lemma LynchLeaves(ballot: Game, names: seq<string>)
    requires Table(ballot.players, names, {1, 2, 3, 5}) && LynchOf(Targets(ballot.dayVotes)) == Some(5)
    requires ballot.hunterTarget == None
    ensures ResolveLynch(ballot).players == KillAt(ballot.players, 5)
  {
    hide LynchOf, FindById;
    TableAfterDeath(ballot.players, names, {1, 2, 3, 5}, 5);
  }

  lemma LedgerCounts(g: Game)
    requires Ledger(g)
    ensures g.aliveCount == CountAlive(g.players)
  {
  }

  /** A real first pass after which the game goes on although no wolf is alive: the wolves kill
      the witch, who poisons one of them; the hunter is lynched, one wolf against two others
      leaves the verdict open, and his shot kills that wolf. */
  lemma ShotCanOutdateVerdict(names: seq<string>) returns (c: PassChoices)
    requires GoodNames(names)
    ensures RoundStart(Start(names)) && Start(names).round == 0
    ensures var p := Pass(Start(names), c);
            && p.winner == Nobody && p.phase == NightWolves && CountWolves(p.players) == 0
            && Recount(p.players) == Village
  {
    hide RunNight, AfterVote, Ledger, LastShot, WitchHunt, CountWolves, CountAlive, HunterRevenge, Start, Pass, RoleDeck, RoundStart;
    c := PassChoices(WitchHunt(names, ""), LastShot(names));
    StartIsReal(names);
    DawnTable(names, c.day);
    var dawn := RunNight(Start(names), c.night);
    VerdictOpen(dawn, names);
    var after := AfterVote(dawn, c.day);
    ShotFired(after, names);
    var dusk := HunterRevenge(after, names[1]);
    TableCounts(dusk.players, names, {2, 3});
    ShotNamed(names);
    GoesOn(Start(names), c);
  }

  /** A day that decides nothing leads to the next night at the same table. */
  lemma GoesOn(g: Game, c: PassChoices)
    requires var dawn := RunNight(g, c.night);
             var dusk := HunterRevenge(AfterVote(dawn, c.day), c.day.shotName);
             dawn.winner == Nobody && dusk.winner == Nobody && dusk.phase == DayResolve && dusk.round == 0
    ensures var p := Pass(g, c);
            && p.winner == Nobody && p.phase == NightWolves
            && p.players == HunterRevenge(AfterVote(RunNight(g, c.night), c.day), c.day.shotName).players
  {
    hide RunNight, AfterVote, HunterRevenge;
  }

  lemma ShotNamed(names: seq<string>)
    requires |names| == 6
    ensures LastShot(names).shotName == names[1]
  {
  }

  lemma ShotFired(after: Game, names: seq<string>)
    requires GoodNames(names) && Table(after.players, names, {1, 2, 3}) && after.lynched == Some(5)
    ensures var dusk := HunterRevenge(after, names[1]);
            && Table(dusk.players, names, {2, 3})
            && dusk.winner == after.winner && dusk.phase == after.phase && dusk.round == after.round
  {
    hide HunterRevenge, KillAt, FindById;
    TableAfterDeath(after.players, names, {1, 2, 3}, 1);
    assert {1, 2, 3} - {1} == {2, 3};
    ShotHits(after, 1);
  }
}
