/** What each decision of the players comes to: who is voted for, looked at, protected, saved,
    poisoned, lynched and shot. */
module WerewolfEffects {
  import opened Text
  import opened Dicts
  import opened WerewolfGame
  import opened WerewolfTheorems

  /** A name in a decision means the first player of that name, if that player is alive. */
  ghost predicate Names(players: seq<Seat>, name: string, i: nat) {
    i < |players| && players[i].name == name && players[i].alive && forall j | 0 <= j < i :: players[j].name != name
  }

  lemma LivingTargetExactly(players: seq<Seat>, name: string, i: nat)
    requires SeatsNumbered(players)
    ensures LivingTarget(players, name) == Some(i) <==> Names(players, name, i)
  {
  }

  ghost predicate SomeoneIs(players: seq<Seat>, role: Role) {
    exists i | 0 <= i < |players| :: players[i].alive && players[i].role == role
  }

  ghost predicate TwoLive(players: seq<Seat>) {
    exists i, j | 0 <= i < j < |players| :: players[i].alive && players[j].alive
  }

  lemma RoleKept(players: seq<Seat>, role: Role)
    ensures WithRole(players, role) != [] <==> SomeoneIs(players, role)
  {
    var kept := WithRole(players, role);
    if kept != [] {
      assert kept[0] in kept && kept[0] in players;
    }
    if i :| 0 <= i < |players| && players[i].alive && players[i].role == role {
      assert players[i] in kept;
    }
  }

  lemma {:induction false} LivingCount(players: seq<Seat>)
    ensures |Living(players)| == CountAlive(players)
  {
    if players != [] { LivingCount(players[..|players| - 1]); }
  }

  lemma {:induction false} AliveSomewhere(players: seq<Seat>)
    ensures CountAlive(players) >= 1 <==> exists i | 0 <= i < |players| :: players[i].alive
    ensures CountAlive(players) >= 2 <==> TwoLive(players)
  {
    if players != [] {
      var n := |players| - 1;
      var before := players[..n];
      AliveSomewhere(before);
      if players[n].alive && CountAlive(before) >= 1 {
        var i :| 0 <= i < |before| && before[i].alive;
        assert players[i].alive;
      }
      if TwoLive(before) {
        var i, j :| 0 <= i < j < |before| && before[i].alive && before[j].alive;
        assert players[i].alive && players[j].alive;
      }
      if TwoLive(players) {
        var i, j :| 0 <= i < j < |players| && players[i].alive && players[j].alive;
        assert before[i].alive;
        if j < n { assert before[j].alive; }
      }
      if i :| 0 <= i < |players| && players[i].alive {
        if i < n { assert before[i].alive; }
      }
    }
  }

  lemma TwoLiveCounted(players: seq<Seat>)
    ensures |Living(players)| >= 2 <==> TwoLive(players)
  {
    LivingCount(players);
    AliveSomewhere(players);
  }

  // ---- the night's decisions ----------------------------------------------------------------

  /** The seer is told of the living player she names whether that player is a werewolf, and of
      nobody if she names none, is dead or is the last. */
  lemma SeerIsTold(g: Game, c: NightChoices)
    requires RoundStart(g)
    ensures var n := BeforeDawn(g, c);
            var named := LivingTarget(g.players, c.seerName);
            if SomeoneIs(g.players, Seer) && TwoLive(g.players) && named.Some?
            then named.value < |g.players| && n.seerTarget == named
                 && n.seerResult == Some(g.players[named.value].role == Werewolf)
            else n.seerTarget == None && n.seerResult == None
  {
    hide WolfPhase, Select, BeforeDawn;
    SeerFrame(g, c);
    RoleKept(g.players, Seer);
    TwoLiveCounted(g.players);
  }

  lemma SeerFrame(g: Game, c: NightChoices)
    ensures var seen := SeerLooks(WolfPhase(g, c).(phase := NightSeer), c);
            BeforeDawn(g, c).seerTarget == seen.seerTarget && BeforeDawn(g, c).seerResult == seen.seerResult
  {
    hide WolfPhase, SeerLooks;
  }

  /** The guard protects the living player he names. */
  lemma GuardProtectsNamed(g: Game, c: NightChoices)
    requires RoundStart(g)
    ensures BeforeDawn(g, c).guardTarget
         == if SomeoneIs(g.players, Guard) && TwoLive(g.players) then LivingTarget(g.players, c.guardName) else None
  {
    hide WolfPhase, Select, LivingTarget, SeerLooks;
    RoleKept(g.players, Guard);
    TwoLiveCounted(g.players);
  }

  /** The witch saves the victim if she asks for it and still can, and poisons the living player
      she names if she still can. */
  lemma WitchActs(g: Game, c: NightChoices)
    requires RoundStart(g)
    ensures var n := BeforeDawn(g, c);
            && n.saveTarget == (if SomeoneIs(g.players, Witch) && !g.saveUsed && c.save then n.nightAttacked else None)
            && n.killTarget == (if SomeoneIs(g.players, Witch) && !g.killUsed && c.poisonName != "" && c.poisonName != "no_kill"
                                then LivingTarget(g.players, c.poisonName) else None)
  {
    hide WolfPhase, Select, LivingTarget, SeerLooks, GuardProtects, AliveId;
    RoleKept(g.players, Witch);
    VictimIsLivingPrey(g, c);
  }

  /** Each wolf's vote is for the living prey it names, and for nobody else. */
  lemma {:induction false} PackRecords(players: seq<Seat>, wolves: seq<Seat>, names: seq<string>, id: nat)
    requires forall a, b | 0 <= a < b < |wolves| :: wolves[a].id != wolves[b].id
    ensures forall k | 0 <= k < |wolves| && wolves[k].id == id ::
              Get(PackVotes(players, wolves, names, []), id) == PreyNamed(players, NameAt(names, k))
    ensures (forall k | 0 <= k < |wolves| :: wolves[k].id != id) ==> Get(PackVotes(players, wolves, names, []), id) == None
  {
    hide Put, Get, PreyNamed, NameAt;
    if wolves == [] {
      NoVote(id);
    } else {
      var k := |wolves| - 1;
      PackRecords(players, wolves[..k], names, id);
      assert forall a | 0 <= a < k :: wolves[..k][a] == wolves[a];
      var target := PreyNamed(players, NameAt(names, k));
      if target.Some? {
        PutReads(PackVotes(players, wolves[..k], names, []), wolves[k].id, target.value, id);
      }
    }
  }

  lemma NoVote(id: nat)
    ensures Get<nat, nat>([], id) == None
  {
  }

  /** Each voter's vote is for the living player it names, and for nobody else. */
  lemma {:induction false} BallotRecords(players: seq<Seat>, voters: seq<Seat>, names: seq<string>, id: nat)
    requires TwoLive(players) && forall a, b | 0 <= a < b < |voters| :: voters[a].id != voters[b].id
    ensures forall k | 0 <= k < |voters| && voters[k].id == id ::
              Get(BallotOf(players, voters, names, []), id) == LivingTarget(players, NameAt(names, k))
    ensures (forall k | 0 <= k < |voters| :: voters[k].id != id) ==> Get(BallotOf(players, voters, names, []), id) == None
  {
    hide Put, Get, LivingTarget, NameAt, Select, TwoLive;
    TwoLiveCounted(players);
    if voters == [] {
      NoVote(id);
    } else {
      var k := |voters| - 1;
      BallotRecords(players, voters[..k], names, id);
      assert forall a | 0 <= a < k :: voters[..k][a] == voters[a];
      var target := LivingTarget(players, NameAt(names, k));
      if target.Some? {
        PutReads(BallotOf(players, voters[..k], names, []), voters[k].id, target.value, id);
      }
    }
  }

  /** The wolves' votes stand as they were cast; only when none counts is a prey drawn. */
  lemma WolfVotesStand(g: Game, c: NightChoices)
    requires RoundStart(g)
    ensures var cast := PackVotes(g.players, Wolves(g.players), c.wolfNames, []);
            && (cast != [] && Prey(g.players) != [] ==> WolfPhase(g, c).wolfVotes == cast)
            && (cast == [] && |Wolves(g.players)| <= 1 ==> WolfPhase(g, c).wolfVotes == [])
  {
    hide Ledger, PackVotes, AllFor, Select, MostVoted;
    NoWolfNoVote(g.players, c.wolfNames);
  }

  lemma NoWolfNoVote(players: seq<Seat>, names: seq<string>)
    ensures PackVotes(players, [], names, []) == []
  {
  }

  ghost predicate AllAt(votes: Votes, target: nat) {
    forall i | 0 <= i < |votes| :: votes[i].1 == target
  }

  lemma {:induction false} PutKeepsTarget(votes: Votes, id: nat, target: nat)
    requires AllAt(votes, target)
    ensures AllAt(Put(votes, id, target), target)
  {
    if votes != [] && votes[0].0 != id {
      PutKeepsTarget(votes[1..], id, target);
      assert Put(votes, id, target) == [votes[0]] + Put(votes[1..], id, target);
    }
  }

  lemma {:induction false} AllForTarget(wolves: seq<Seat>, target: nat)
    ensures AllAt(AllFor(wolves, target, []), target) && (wolves != [] ==> AllFor(wolves, target, []) != [])
  {
    if wolves != [] {
      AllForTarget(wolves[..|wolves| - 1], target);
      PutKeepsTarget(AllFor(wolves[..|wolves| - 1], target, []), wolves[|wolves| - 1].id, target);
    }
  }

  /** When no wolf's vote counts, chance can make any living prey the victim: the draw n does. */
  lemma AnyPreyCanFall(g: Game, c: NightChoices, i: nat) returns (n: nat)
    requires RoundStart(g) && i < |g.players| && LivingPrey(g.players[i])
    requires PackVotes(g.players, Wolves(g.players), c.wolfNames, []) == []
    ensures WolfPhase(g, c.(prey := n, lateVictim := n)).nightAttacked == Some(g.players[i].id)
  {
    hide PackVotes, AllFor, Select, Targets;
    var prey, wolves, id := Prey(g.players), Wolves(g.players), g.players[i].id;
    assert g.players[i] in prey;
    n :| 0 <= n < |prey| && prey[n] == g.players[i];
    assert Pick(prey, n) == prey[n];
    if |wolves| > 1 {
      AllForTarget(wolves, id);
      var votes := AllFor(wolves, id, []);
      assert forall x | x in Targets(votes) :: x == id;
    }
  }

  ghost predicate LivingPlayer(players: seq<Seat>, id: nat) {
    exists i | 0 <= i < |players| :: players[i].id == id && players[i].alive
  }

  /** The day's votes stand as they were cast; only when none counts and two players live does
      a living player get a random vote from another. */
  lemma DayVotesStand(g: Game, d: DayChoices)
    requires g.dayVotes == [] && SeatsNumbered(g.players)
    ensures var cast := BallotOf(g.players, Living(g.players), d.voteNames, []);
            var votes := DayVotes(g, d).dayVotes;
            && (cast != [] || !TwoLive(g.players) ==> votes == cast)
            && (cast == [] && TwoLive(g.players) ==>
                  && |votes| == 1 && votes[0].0 != votes[0].1
                  && LivingPlayer(g.players, votes[0].0) && LivingPlayer(g.players, votes[0].1))
  {
    hide BallotOf, TwoLive;
    TwoLiveCounted(g.players);
    var living := Living(g.players);
    if BallotOf(g.players, living, d.voteNames, []) == [] && TwoLive(g.players) {
      var voter := Pick(living, d.voter);
      var others := Select(g.players, (p: Seat) => p.alive && p.id != voter.id);
      AnotherLives(g.players, voter);
      var target := Pick(others, d.target);
      assert voter in g.players && target in g.players;
    }
  }

  lemma AnotherLives(players: seq<Seat>, voter: Seat)
    requires SeatsNumbered(players) && |Living(players)| >= 2
    ensures Select(players, (p: Seat) => p.alive && p.id != voter.id) != []
  {
    TwoLiveCounted(players);
    var i, j :| 0 <= i < j < |players| && players[i].alive && players[j].alive;
    var others := Select(players, (p: Seat) => p.alive && p.id != voter.id);
    assert players[i] in others || players[j] in others;
  }

  // ---- the day's dead ------------------------------------------------------------------------

  /** By day exactly the lynched player dies before the verdict. */
  lemma DayDeaths(dawn: Game, d: DayChoices, i: nat)
    requires Ledger(dawn) && dawn.hunterTarget == None && i < |dawn.players| && dawn.players[i].alive
    ensures |AfterVote(dawn, d).players| == |dawn.players|
    ensures !AfterVote(dawn, d).players[i].alive <==> LynchOf(Targets(Ballot(dawn, d).dayVotes)) == Some(i)
  {
    hide Ledger, LynchOf, DayVotes, Kill, AliveId;
    var ballot := Ballot(dawn, d);
    LedgerFrame(dawn, ballot);
    LynchDeaths(ballot, i);
    assert AfterVote(dawn, d) == WerewolfGame.Judge(ResolveLynch(ballot));
  }

  lemma LynchDeaths(g: Game, i: nat)
    requires Ledger(g) && g.hunterTarget == None && i < |g.players| && g.players[i].alive
    ensures |ResolveLynch(g).players| == |g.players|
    ensures !ResolveLynch(g).players[i].alive <==> LynchOf(Targets(g.dayVotes)) == Some(i)
  {
    hide LynchOf, Kill;
    var lynched := LynchOf(Targets(g.dayVotes));
    ById(g.players, i);
    if lynched.Some? {
      LedgerFrame(g, g.(lynched := lynched));
      KillChangesOne(g.(lynched := lynched), lynched.value, i);
    }
  }

  /** The lynched hunter's shot hits the living player it names. */
  ghost predicate ShotHitsNamed(g: Game, shotName: string, i: nat) {
    && g.lynched.Some? && g.lynched.value < |g.players| && g.players[g.lynched.value].role == Hunter
    && g.lynched.value != i && shotName != "" && shotName != "none" && Names(g.players, shotName, i)
  }

  lemma ShotDeaths(g: Game, shotName: string, i: nat)
    requires Ledger(g) && i < |g.players| && g.players[i].alive
    requires g.lynched.Some? && g.lynched.value < |g.players| ==> !g.players[g.lynched.value].alive
    ensures |HunterRevenge(g, shotName).players| == |g.players|
    ensures !HunterRevenge(g, shotName).players[i].alive <==> ShotHitsNamed(g, shotName, i)
  {
    hide Kill, LivingTarget, Select;
    LivingTargetExactly(g.players, shotName, i);
    if g.lynched.Some? { ById(g.players, g.lynched.value); }
    var target := LivingTarget(g.players, shotName);
    if target.Some? {
      LedgerFrame(g, g.(hunterTarget := target));
      KillChangesOne(g.(hunterTarget := target), target.value, i);
    }
    assert g.lynched.Some? && g.lynched.value != i ==>
             g.players[i] in Select(g.players, (p: Seat) => p.alive && p.id != g.lynched.value);
  }

  /** A whole day's dead: the lynched player and whom a lynched hunter shoots, no others. */
  lemma WholeDayDeaths(dawn: Game, d: DayChoices, i: nat)
    requires Ledger(dawn) && dawn.hunterTarget == None && dawn.winner == Nobody
    requires i < |dawn.players| && dawn.players[i].alive
    ensures |RunDay(dawn, d).players| == |dawn.players|
    ensures !RunDay(dawn, d).players[i].alive
       <==> || LynchOf(Targets(Ballot(dawn, d).dayVotes)) == Some(i)
            || ShotHitsNamed(AfterVote(dawn, d), d.shotName, i)
  {
    hide Ledger, LynchOf, DayVotes, HunterRevenge, ResolveLynch, OnlyDeaths;
    var after := AfterVote(dawn, d);
    DayDeaths(dawn, d, i);
    DayKeepsLedger(dawn, d);
    LynchedIsDead(dawn, d);
    if after.players[i].alive {
      ShotDeaths(after, d.shotName, i);
    } else {
      ShotKillsNobodyTwice(after, d.shotName, i);
    }
  }

  lemma LynchedIsDead(dawn: Game, d: DayChoices)
    requires Ledger(dawn) && dawn.hunterTarget == None
    ensures var after := AfterVote(dawn, d);
            && after.lynched == LynchOf(Targets(Ballot(dawn, d).dayVotes))
            && (after.lynched.Some? && after.lynched.value < |after.players| ==> !after.players[after.lynched.value].alive)
  {
    hide LynchOf, DayVotes, Kill, AliveId;
    var ballot := Ballot(dawn, d);
    var after := AfterVote(dawn, d);
    LedgerFrame(dawn, ballot);
    LynchKeepsLedger(ballot);
    assert after == WerewolfGame.Judge(ResolveLynch(ballot));
    if after.lynched.Some? && after.lynched.value < |after.players| && ballot.players[after.lynched.value].alive {
      LynchDeaths(ballot, after.lynched.value);
    }
  }

  lemma ShotKillsNobodyTwice(g: Game, shotName: string, i: nat)
    requires Ledger(g) && i < |g.players| && !g.players[i].alive
    ensures |HunterRevenge(g, shotName).players| == |g.players| && !HunterRevenge(g, shotName).players[i].alive
  {
    hide Ledger, HunterRevenge;
    RevengeKeepsLedger(g, shotName);
  }

  // ---- the start and the phases -----------------------------------------------------------------

  /** A new game seats the named players in order, numbered, alive, with the shuffled roles. */
  lemma NewGameSeats(names: seq<string>, shuffled: seq<Role>, i: nat)
    requires |names| == |shuffled| && i < |names|
    ensures var g := InitGame(names, shuffled);
            && |g.players| == |names| == g.aliveCount
            && g.players[i].name == names[i] && g.players[i].role == shuffled[i]
            && g.players[i].id == i && g.players[i].alive
  {
    hide CountWolves;
  }

  function Advance(g: Game, n: nat): (r: Game) {
    if n == 0 then g else AdvancePhase(Advance(g, n - 1))
  }

  /** The phases of a round in their order. */
  const ROUND_PHASES: seq<Phase> := [NightWolves, NightSeer, NightGuard, NightWitch, NightResolve,
                                     DayAnnounce, DayDiscussion, DayVote, DayResolve]

  lemma {:induction false} AdvanceFollowsRound(g: Game, n: nat)
    requires g.phase == NightWolves && n < 9
    ensures Advance(g, n) == g.(phase := ROUND_PHASES[n])
  {
    hide NewRound;
    if n > 0 { AdvanceFollowsRound(g, n - 1); }
  }

  /** The ninth advance starts the next round with a night, unless the rounds are used up. */
  lemma NinthAdvance(g: Game)
    requires g.phase == NightWolves
    ensures var next := Advance(g, 9);
            && next.round == g.round + 1 && next.phase == (if g.round >= 15 then GameOver else NightWolves)
            && next.winner == if g.round >= 15 then Draw else g.winner
  {
    AdvanceFollowsRound(g, 8);
    assert Advance(g, 9) == AdvancePhase(Advance(g, 8));
  }
}
