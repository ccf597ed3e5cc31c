/** What holds in every game, whatever the players decide. */
module WerewolfTheorems {
  import opened Text
  import opened Dicts
  import opened WerewolfGame

  // ---- the books: counter, dead players and revealed roles ------------------------------

  ghost predicate SeatsNumbered(players: seq<Seat>) {
    forall i | 0 <= i < |players| :: players[i].id == i
  }

  /** The running counter is right and exactly the dead are shown, with their true roles. */
  ghost predicate Ledger(g: Game) {
    && SeatsNumbered(g.players)
    && g.aliveCount == CountAlive(g.players)
    && (forall id: nat :: id in g.revealed <==> id < |g.players| && !g.players[id].alive)
    && (forall id | id in g.revealed :: g.revealed[id] == g.players[id].role)
  }

  /** The same table, and nobody comes back to life. */
  ghost predicate OnlyDeaths(before: seq<Seat>, after: seq<Seat>) {
    && |after| == |before|
    && forall i | 0 <= i < |before| ::
         after[i] == before[i].(alive := after[i].alive) && (after[i].alive ==> before[i].alive)
  }

  /** The state every night starts from. */
  ghost predicate RoundStart(g: Game) {
    && Ledger(g) && g.phase == NightWolves && g.winner == Nobody
    && g.wolfVotes == [] && g.dayVotes == [] && g.guardTarget == None
    && g.saveTarget == None && g.killTarget == None && g.nightAttacked == None
    && g.lynched == None && g.hunterTarget == None && g.seerTarget == None && g.seerResult == None
  }

  lemma ById(players: seq<Seat>, id: nat)
    requires SeatsNumbered(players)
    ensures FindById(players, id) == if id < |players| then Some(id) else None
  {
  }

  lemma {:induction false} CountsAfterDeath(players: seq<Seat>, i: nat)
    requires i < |players| && players[i].alive
    ensures CountAlive(KillAt(players, i)) == CountAlive(players) - 1
    ensures CountWolves(KillAt(players, i)) == CountWolves(players) - if players[i].role == Werewolf then 1 else 0
  {
    var n := |players| - 1;
    if i < n {
      CountsAfterDeath(players[..n], i);
      assert KillAt(players, i)[..n] == KillAt(players[..n], i);
    } else {
      assert KillAt(players, i)[..n] == players[..n];
    }
  }

  /** Every kill site, on a living player, keeps the books. */
  lemma KillKeepsLedger(g: Game, id: nat)
    requires Ledger(g) && AliveId(g.players, id)
    ensures Ledger(Kill(g, id)) && OnlyDeaths(g.players, Kill(g, id).players)
    ensures Kill(g, id) == g.(players := Kill(g, id).players, aliveCount := g.aliveCount - 1,
                              revealed := Kill(g, id).revealed)
    ensures !AliveId(Kill(g, id).players, id)
  {
    hide CountAlive, CountWolves;
    ById(g.players, id);
    CountsAfterDeath(g.players, id);
    ById(Kill(g, id).players, id);
  }

  // ---- the wolves' victim ---------------------------------------------------------------

  ghost predicate PreyId(players: seq<Seat>, id: nat) {
    exists i | 0 <= i < |players| :: players[i].id == id && LivingPrey(players[i])
  }

  ghost predicate AllPrey(players: seq<Seat>, votes: Votes) {
    forall i | 0 <= i < |votes| :: PreyId(players, votes[i].1)
  }

  lemma {:induction false} VoteKeepsPrey(players: seq<Seat>, votes: Votes, voter: nat, target: nat)
    requires AllPrey(players, votes) && PreyId(players, target)
    ensures AllPrey(players, Put(votes, voter, target)) && Put(votes, voter, target) != []
  {
    if votes != [] && votes[0].0 != voter {
      assert AllPrey(players, votes[1..]);
      VoteKeepsPrey(players, votes[1..], voter, target);
      var rest := Put(votes[1..], voter, target);
      forall i | 0 <= i < |rest| + 1 ensures PreyId(players, ([votes[0]] + rest)[i].1) {
        if i > 0 { assert ([votes[0]] + rest)[i] == rest[i - 1]; }
      }
    }
  }

  lemma {:induction false} PackVotesForPrey(players: seq<Seat>, wolves: seq<Seat>, names: seq<string>, votes: Votes)
    requires AllPrey(players, votes)
    ensures AllPrey(players, PackVotes(players, wolves, names, votes))
  {
    if wolves != [] {
      var k := |wolves| - 1;
      PackVotesForPrey(players, wolves[..k], names, votes);
      var target := PreyNamed(players, NameAt(names, k));
      if target.Some? {
        VoteKeepsPrey(players, PackVotes(players, wolves[..k], names, votes), wolves[k].id, target.value);
      }
    }
  }

  lemma {:induction false} AllForPrey(players: seq<Seat>, wolves: seq<Seat>, target: nat, votes: Votes)
    requires AllPrey(players, votes) && PreyId(players, target)
    ensures AllPrey(players, AllFor(wolves, target, votes))
  {
    if wolves != [] {
      AllForPrey(players, wolves[..|wolves| - 1], target, votes);
      VoteKeepsPrey(players, AllFor(wolves[..|wolves| - 1], target, votes), wolves[|wolves| - 1].id, target);
    }
  }

  lemma PreyAreListed(players: seq<Seat>)
    ensures forall p | p in Prey(players) :: PreyId(players, p.id)
    ensures forall id | PreyId(players, id) :: Prey(players) != []
  {
    forall p | p in Prey(players) ensures PreyId(players, p.id) {
      var i :| 0 <= i < |players| && players[i] == p;
      assert LivingPrey(players[i]);
    }
    forall id | PreyId(players, id) ensures Prey(players) != [] {
      var i :| 0 <= i < |players| && players[i].id == id && LivingPrey(players[i]);
      assert players[i] in Prey(players);
    }
  }

  lemma WolvesVoteForPrey(g: Game, c: NightChoices)
    requires g.wolfVotes == []
    ensures AllPrey(g.players, WolvesVote(g, c).wolfVotes)
  {
    hide Select, PackVotes, AllFor, AllPrey;
    var wolves := Wolves(g.players);
    var prey := Prey(g.players);
    PreyAreListed(g.players);
    NoVotesForPrey(g.players);
    PackVotesForPrey(g.players, wolves, c.wolfNames, []);
    if prey != [] {
      AllForPrey(g.players, wolves, Pick(prey, c.prey).id, []);
    }
  }

  lemma NoVotesForPrey(players: seq<Seat>)
    ensures AllPrey(players, [])
  {
  }

  /** The target is among those with the most votes. */
  ghost predicate MostVotes(votes: seq<nat>, target: nat) {
    target in votes && forall t :: multiset(votes)[t] <= multiset(votes)[target]
  }

  /** The wolves' victim is a living player who is no wolf, and with votes one with the most
      votes; there is none only when no such player is left. */
  lemma VictimIsLivingPrey(g: Game, c: NightChoices)
    requires RoundStart(g)
    ensures var w := WolfPhase(g, c);
            && (w.nightAttacked.Some? ==> PreyId(g.players, w.nightAttacked.value))
            && (w.nightAttacked.Some? ==> AliveId(g.players, w.nightAttacked.value))
            && (w.nightAttacked.None? <==> Prey(g.players) == [])
            && (w.wolfVotes != [] ==> MostVotes(Targets(w.wolfVotes), w.nightAttacked.value))
  {
    hide WolvesVote, Ledger, Select;
    var voted := WolvesVote(g.(phase := NightWolves), c);
    var votes := Targets(voted.wolfVotes);
    WolvesVoteForPrey(g.(phase := NightWolves), c);
    PreyAreListed(g.players);
    if voted.wolfVotes != [] {
      var v := MostVoted(c.setOrder, votes);
      var i :| 0 <= i < |votes| && votes[i] == v;
      assert PreyId(g.players, voted.wolfVotes[i].1);
      TopIsMost(votes, v);
    }
    var w := WolfPhase(g, c);
    if w.nightAttacked.Some? {
      PreyIsAlive(g, w.nightAttacked.value);
    }
  }

  lemma TopIsMost(votes: seq<nat>, v: nat)
    requires v in votes && forall t | t in votes :: multiset(votes)[t] <= multiset(votes)[v]
    ensures MostVotes(votes, v)
  {
    forall t ensures multiset(votes)[t] <= multiset(votes)[v] {
      assert t !in votes ==> t !in multiset(votes);
    }
  }

  lemma PreyIsAlive(g: Game, id: nat)
    requires Ledger(g) && PreyId(g.players, id)
    ensures AliveId(g.players, id)
  {
    ById(g.players, id);
  }

  // ---- one night -----------------------------------------------------------------------

  lemma LedgerFrame(g: Game, h: Game)
    requires Ledger(g) && h.players == g.players && h.aliveCount == g.aliveCount && h.revealed == g.revealed
    ensures Ledger(h)
  {
  }

  ghost predicate DawnReady(n: Game) {
    Ledger(n) && (n.nightAttacked.Some? ==> AliveId(n.players, n.nightAttacked.value))
  }

  /** Before its resolution a night harms nobody: the books stay right and the attack is on a living player. */
  lemma NightOnlyNotes(g: Game, c: NightChoices)
    requires RoundStart(g)
    ensures DawnReady(BeforeDawn(g, c)) && DawnReady(BeforeDawn(g, c).(phase := NightResolve))
  {
    hide BeforeDawn, WolfPhase, AliveId;
    VictimIsLivingPrey(g, c);
    LedgerFrame(g, BeforeDawn(g, c));
    LedgerFrame(g, BeforeDawn(g, c).(phase := NightResolve));
  }

  lemma AttackKeepsLedger(n: Game)
    requires DawnReady(n)
    ensures Ledger(ResolveAttack(n)) && OnlyDeaths(n.players, ResolveAttack(n).players)
  {
    hide Ledger, OnlyDeaths, AliveId, Kill;
    NobodyDies(n);
    LedgerFrame(n, n.(nightDeath := None));
    LedgerFrame(n, n.(nightDeath := None, saveUsed := true));
    if n.nightAttacked.Some? {
      LedgerFrame(n, n.(nightDeath := n.nightAttacked));
      KillKeepsLedger(n.(nightDeath := n.nightAttacked), n.nightAttacked.value);
    }
  }

  lemma NobodyDies(g: Game)
    ensures OnlyDeaths(g.players, g.players)
  {
  }

  lemma NightKeepsLedger(n: Game)
    requires DawnReady(n)
    ensures Ledger(ResolveNight(n)) && OnlyDeaths(n.players, ResolveNight(n).players)
    ensures OnlyDeaths(ResolveAttack(n).players, ResolveNight(n).players)
  {
    hide Ledger, OnlyDeaths, AliveId, Kill, ResolveAttack, CountWolves;
    var a := ResolveAttack(n);
    AttackKeepsLedger(n);
    NobodyDies(a);
    if PoisonWorks(a) {
      KillKeepsLedger(a, a.killTarget.value);
      LedgerFrame(Kill(a, a.killTarget.value), ResolveNight(n));
    } else {
      LedgerFrame(a, ResolveNight(n));
    }
    DeathsAddUp(n.players, a.players, ResolveNight(n).players);
  }

  lemma KillChangesOne(g: Game, id: nat, i: nat)
    requires Ledger(g) && i < |g.players|
    ensures |Kill(g, id).players| == |g.players|
    ensures Kill(g, id).players[i].alive <==> g.players[i].alive && i != id
  {
    ById(g.players, id);
  }

  /** The night's deaths are the unsaved victim and the poisoned player, no others. */
  lemma NightDeaths(g: Game, c: NightChoices, i: nat)
    requires RoundStart(g) && i < |g.players| && g.players[i].alive
    ensures |RunNight(g, c).players| == |g.players|
    ensures var n := BeforeDawn(g, c);
            !RunNight(g, c).players[i].alive
            <==> (n.nightAttacked == Some(i) && !VictimSaved(n)) || n.killTarget == Some(i)
  {
    hide BeforeDawn, ResolveAttack, ResolvePoison, CountWolves, Ledger, AliveId;
    var n := BeforeDawn(g, c).(phase := NightResolve);
    NightOnlyNotes(g, c);
    AttackKeepsLedger(n);
    AttackDeaths(n, i);
    PoisonDeaths(ResolveAttack(n), i);
  }

  lemma AttackDeaths(n: Game, i: nat)
    requires DawnReady(n) && i < |n.players|
    ensures |ResolveAttack(n).players| == |n.players|
    ensures ResolveAttack(n).players[i].alive
       <==> n.players[i].alive && !(n.nightAttacked == Some(i) && !VictimSaved(n))
  {
    hide Kill, Ledger, AliveId;
    if n.nightAttacked.Some? {
      LedgerFrame(n, n.(nightDeath := n.nightAttacked));
      KillChangesOne(n.(nightDeath := n.nightAttacked), n.nightAttacked.value, i);
    }
  }

  lemma PoisonDeaths(a: Game, i: nat)
    requires Ledger(a) && i < |a.players|
    ensures |ResolvePoison(a).players| == |a.players|
    ensures ResolvePoison(a).players[i].alive <==> a.players[i].alive && a.killTarget != Some(i)
  {
    hide Kill;
    if a.killTarget.Some? {
      KillChangesOne(a, a.killTarget.value, i);
      ById(a.players, a.killTarget.value);
    }
  }

  // ---- one day -------------------------------------------------------------------------

  lemma LynchKeepsLedger(g: Game)
    requires Ledger(g) && g.hunterTarget == None
    ensures Ledger(ResolveLynch(g)) && OnlyDeaths(g.players, ResolveLynch(g).players)
  {
    hide Ledger, OnlyDeaths, AliveId, Kill, LynchOf;
    var lynched := LynchOf(Targets(g.dayVotes));
    LedgerFrame(g, g.(lynched := lynched));
    NobodyDies(g);
    if lynched.Some? && AliveId(g.players, lynched.value) {
      KillKeepsLedger(g.(lynched := lynched), lynched.value);
    }
  }

  lemma RevengeKeepsLedger(g: Game, shotName: string)
    requires Ledger(g)
    ensures Ledger(HunterRevenge(g, shotName)) && OnlyDeaths(g.players, HunterRevenge(g, shotName).players)
  {
    hide Kill, LivingTarget, Select, Ledger, OnlyDeaths, AliveId;
    var target := LivingTarget(g.players, shotName);
    NobodyDies(g);
    if target.Some? {
      TargetLives(g, shotName);
      LedgerFrame(g, g.(hunterTarget := target));
      KillKeepsLedger(g.(hunterTarget := target), target.value);
    }
  }

  lemma TargetLives(g: Game, name: string)
    requires Ledger(g) && LivingTarget(g.players, name).Some?
    ensures AliveId(g.players, LivingTarget(g.players, name).value)
  {
    ById(g.players, LivingTarget(g.players, name).value);
  }

  /** The day's states: the ballot, the lynching, the verdict, the hunter's shot. */
  function Ballot(dawn: Game, d: DayChoices): (r: Game)
    ensures r == dawn.(phase := DayResolve, dayVotes := r.dayVotes)
  {
    DayVotes(dawn.(phase := DayVote), d).(phase := DayResolve)
  }

  lemma DayKeepsLedger(dawn: Game, d: DayChoices)
    requires Ledger(dawn) && dawn.hunterTarget == None && dawn.winner == Nobody
    ensures var ballot := Ballot(dawn, d);
            && Ledger(ballot) && Ledger(ResolveLynch(ballot)) && Ledger(AfterVote(dawn, d)) && Ledger(RunDay(dawn, d))
            && OnlyDeaths(dawn.players, AfterVote(dawn, d).players)
            && OnlyDeaths(AfterVote(dawn, d).players, RunDay(dawn, d).players)
    ensures var dusk := RunDay(dawn, d);
            && dusk.round == dawn.round && dusk.saveUsed == dawn.saveUsed && dusk.killUsed == dawn.killUsed
            && (if dusk.winner == Nobody then dusk.phase == DayResolve else dusk.phase == GameOver)
  {
    hide Ledger, OnlyDeaths, ResolveLynch, HunterRevenge, DayVotes, CountWolves;
    var ballot := Ballot(dawn, d);
    var lynch := ResolveLynch(ballot);
    LedgerFrame(dawn, ballot);
    LynchKeepsLedger(ballot);
    assert AfterVote(dawn, d) == WerewolfGame.Judge(lynch);
    LedgerFrame(lynch, AfterVote(dawn, d));
    RevengeKeepsLedger(AfterVote(dawn, d), d.shotName);
  }

  /** The books are right after every phase of a pass, and between them nobody comes back. */
  ghost predicate BooksThroughPass(g: Game, c: PassChoices) {
    var n := BeforeDawn(g, c.night);
    var attack := ResolveAttack(n.(phase := NightResolve));
    var dawn := RunNight(g, c.night);
    var verdict := AfterVote(dawn, c.day);
    var dusk := RunDay(dawn, c.day);
    && Ledger(WolfPhase(g, c.night)) && Ledger(n) && Ledger(attack) && Ledger(dawn)
    && Ledger(Ballot(dawn, c.day)) && Ledger(ResolveLynch(Ballot(dawn, c.day))) && Ledger(verdict)
    && Ledger(dusk) && Ledger(Pass(g, c))
    && OnlyDeaths(g.players, attack.players) && OnlyDeaths(attack.players, dawn.players)
    && OnlyDeaths(dawn.players, verdict.players) && OnlyDeaths(verdict.players, dusk.players)
    && Pass(g, c).players == dusk.players
  }

  lemma PassKeepsLedger(g: Game, c: PassChoices)
    requires RoundStart(g)
    ensures BooksThroughPass(g, c)
    ensures Ledger(RunNight(g, c.night)) && Ledger(Pass(g, c))
    ensures OnlyDeaths(g.players, RunNight(g, c.night).players) && OnlyDeaths(g.players, Pass(g, c).players)
  {
    hide Ledger, OnlyDeaths, BeforeDawn, ResolveAttack, ResolveNight, AfterVote, RunDay, WolfPhase, ResolveLynch, Ballot;
    var n := BeforeDawn(g, c.night);
    var dawn := RunNight(g, c.night);
    var dusk := RunDay(dawn, c.day);
    LedgerFrame(g, WolfPhase(g, c.night));
    NightOnlyNotes(g, c.night);
    AttackKeepsLedger(n.(phase := NightResolve));
    NightKeepsLedger(n.(phase := NightResolve));
    LedgerFrame(ResolveNight(n.(phase := NightResolve)), dawn);
    DayKeepsLedger(dawn, c.day);
    LedgerFrame(dusk, Pass(g, c));
    DeathsAddUp(g.players, dawn.players, AfterVote(dawn, c.day).players);
    DeathsAddUp(g.players, AfterVote(dawn, c.day).players, dusk.players);
  }

  /** A night names no winner and leaves the round and the hunter's target alone. */
  lemma DawnFacts(g: Game, c: NightChoices)
    requires g.winner == Nobody
    ensures var dawn := RunNight(g, c);
            && dawn.winner == Nobody && dawn.round == g.round && dawn.hunterTarget == g.hunterTarget
            && dawn.dayVotes == g.dayVotes
  {
    hide BeforeDawn;
  }

  lemma NextRound(dusk: Game)
    requires Ledger(dusk) && dusk.phase == DayResolve && dusk.winner == Nobody
    ensures var p := AdvancePhase(dusk.(round := dusk.round + 1));
            && Sound(p) && (p.phase != GameOver ==> p.round == dusk.round + 2 <= MAX_ROUNDS)
            && p.saveUsed == dusk.saveUsed && p.killUsed == dusk.killUsed
  {
    var p := AdvancePhase(dusk.(round := dusk.round + 1));
    LedgerFrame(dusk, p);
    hide Ledger;
  }

  /** A pass ends the game with a result or leaves a fresh round, two rounds on. */
  lemma PassOutcome(g: Game, c: PassChoices)
    requires RoundStart(g)
    ensures var p := Pass(g, c);
            && Sound(p) && (p.phase != GameOver ==> p.round == g.round + 2 <= MAX_ROUNDS)
            && p.saveUsed == RunNight(g, c.night).saveUsed && p.killUsed == RunNight(g, c.night).killUsed
  {
    hide Ledger, OnlyDeaths, BooksThroughPass, RunNight, RunDay, AdvancePhase;
    var dawn := RunNight(g, c.night);
    PassKeepsLedger(g, c);
    DawnFacts(g, c.night);
    DayKeepsLedger(dawn, c.day);
    var dusk := RunDay(dawn, c.day);
    if dusk.phase == DayResolve {
      NextRound(dusk);
    }
  }

  // ---- the verdict ----------------------------------------------------------------------

  /** Who has won, counted afresh from the players. */
  function Recount(players: seq<Seat>): (r: Winner) {
    var wolves := CountWolves(players);
    var others := CountAlive(players) - wolves;
    if wolves == 0 then Village else if wolves >= others then Werewolves else Nobody
  }

  lemma {:induction false} WolvesAmongAlive(players: seq<Seat>)
    ensures CountWolves(players) <= CountAlive(players)
    ensures CountWolves(players) == 0 <==> forall i | 0 <= i < |players| :: !LivingWolf(players[i])
  {
    if players != [] {
      WolvesAmongAlive(players[..|players| - 1]);
      assert players == players[..|players| - 1] + [players[|players| - 1]];
    }
  }

  /** Right after the day is resolved the verdict from the running counters is a fresh recount:
      the village has won iff no wolf lives, the wolves iff some live and they are at least as
      many as the others; otherwise wolves live and are fewer than the others. */
  lemma VerdictIsRecount(g: Game)
    requires Ledger(g) && g.hunterTarget == None && g.winner == Nobody
    ensures var r := ResolveDay(g);
            && r.winner == Recount(r.players) && r.wolfCount == CountWolves(r.players)
            && (r.winner == Village <==> forall i | 0 <= i < |r.players| :: !LivingWolf(r.players[i]))
            && (r.winner == Werewolves <==> 1 <= r.wolfCount && r.wolfCount >= r.aliveCount - r.wolfCount)
            && (r.winner == Nobody <==> 0 < r.wolfCount < r.aliveCount - r.wolfCount)
            && (g.phase != GameOver ==> (r.phase == GameOver <==> r.winner != Nobody))
  {
    hide ResolveLynch, OnlyDeaths, SeatsNumbered;
    LynchKeepsLedger(g);
    WolvesAmongAlive(ResolveLynch(g).players);
  }

  lemma KillIs(g: Game, i: nat)
    requires SeatsNumbered(g.players) && i < |g.players|
    ensures Kill(g, i).players == KillAt(g.players, i)
  {
    ById(g.players, i);
  }

  lemma ShotHits(g: Game, i: nat)
    requires SeatsNumbered(g.players) && i < |g.players| && g.players[i].alive
    requires g.lynched.Some? && g.lynched.value < |g.players| && g.lynched.value != i
    requires g.players[g.lynched.value].role == Hunter
    requires g.players[i].name != "" && g.players[i].name != "none"
    requires forall j | 0 <= j < i :: g.players[j].name != g.players[i].name
    ensures HunterRevenge(g, g.players[i].name) == Kill(g.(hunterTarget := Some(i)), i)
    ensures HunterRevenge(g, g.players[i].name).players == KillAt(g.players, i)
  {
    hide Kill, FindByName, FindById, Select;
    ById(g.players, g.lynched.value);
    ById(g.players, i);
    assert FindByName(g.players, g.players[i].name) == Some(i);
    KillIs(g.(hunterTarget := Some(i)), i);
    assert g.players[i] in Select(g.players, (p: Seat) => p.alive && p.id != g.lynched.value);
  }

  /** Without a shot the winner at the end of the day is the recount. */
  lemma NoShotKeepsVerdict(g: Game, d: DayChoices)
    requires Ledger(g) && g.hunterTarget == None && g.winner == Nobody
    requires RunDay(g, d).hunterTarget == None
    ensures RunDay(g, d).winner == Recount(RunDay(g, d).players)
  {
    hide Ledger, ResolveDay, DayVotes, LivingTarget, Kill, Select;
    var ballot := Ballot(g, d);
    LedgerFrame(g, ballot);
    VerdictIsRecount(ballot);
    assert AfterVote(g, d) == ResolveDay(ballot);
  }

  /** A shot that hits leaves the verdict right exactly when a wolf who is hit is not the last
      and does not take the wolves' majority, or when, in a game that goes on, the others stay
      more than the wolves. */
  lemma ShotKeepsVerdictExactly(g: Game, shotName: string, i: nat)
    requires Ledger(g) && g.winner == Recount(g.players) && g.hunterTarget == None
    requires HunterRevenge(g, shotName).hunterTarget == Some(i)
    ensures var h := HunterRevenge(g, shotName);
            var wolves := CountWolves(g.players);
            var others := CountAlive(g.players) - wolves;
            && i < |g.players|
            && (h.winner == Recount(h.players)
                <==> if g.players[i].role == Werewolf
                     then wolves >= 2 && (g.winner == Werewolves ==> wolves > others)
                     else g.winner == Nobody ==> others >= wolves + 2)
  {
    ShotKills(g, shotName, i);
    hide HunterRevenge, Ledger, KillAt;
    CountsAfterDeath(g.players, i);
    WolvesAmongAlive(g.players);
  }

  lemma ShotKills(g: Game, shotName: string, i: nat)
    requires Ledger(g) && g.hunterTarget == None && HunterRevenge(g, shotName).hunterTarget == Some(i)
    ensures i < |g.players| && g.players[i].alive
    ensures HunterRevenge(g, shotName).players == KillAt(g.players, i)
    ensures HunterRevenge(g, shotName).winner == g.winner
  {
    hide Select, Kill;
    assert SeatsNumbered(g.players);
    KillIs(g.(hunterTarget := Some(i)), i);
  }

  // ---- the vote tally -----------------------------------------------------------------

  /** The lynched player is the one with strictly more votes than every other; a tie at the
      top, or no vote, lynches nobody. */
  lemma LynchIsStrictPlurality(votes: seq<nat>, x: nat)
    ensures LynchOf(votes) == Some(x)
       <==> x in votes && forall y | y != x :: multiset(votes)[y] < multiset(votes)[x]
  {
    if votes != [] {
      var top := FirstMost(votes, votes);
      assert forall y :: y in multiset(votes) <==> y in votes;
    }
  }

  /** The order in which the votes were cast does not matter. */
  lemma LynchIgnoresOrder(a: seq<nat>, b: seq<nat>)
    requires multiset(a) == multiset(b)
    ensures LynchOf(a) == LynchOf(b)
  {
    assert forall x :: x in a <==> x in multiset(a);
    assert forall x :: x in b <==> x in multiset(b);
    if LynchOf(a).Some? {
      LynchIsStrictPlurality(a, LynchOf(a).value);
      LynchIsStrictPlurality(b, LynchOf(a).value);
    } else if LynchOf(b).Some? {
      LynchIsStrictPlurality(b, LynchOf(b).value);
      LynchIsStrictPlurality(a, LynchOf(b).value);
    }
  }

  // ---- the potions --------------------------------------------------------------------

  /** This night the witch's save goes to the wolves' victim. */
  predicate SaveWorks(g: Game, c: NightChoices) {
    BeforeDawn(g, c).saveTarget.Some? && BeforeDawn(g, c).saveTarget == BeforeDawn(g, c).nightAttacked
  }

  /** This night somebody dies of the poison. */
  predicate PoisonKills(g: Game, c: NightChoices) {
    PoisonWorks(ResolveAttack(BeforeDawn(g, c).(phase := NightResolve)))
  }

  /** Nights of a game in which the save, or the poison, took effect. */
  function Saves(g: Game, choices: seq<PassChoices>): (r: nat) {
    if choices == [] then 0
    else
      var k := |choices| - 1;
      var before := Play(g, choices[..k]);
      Saves(g, choices[..k]) + if Running(before) && SaveWorks(before, choices[k].night) then 1 else 0
  }

  function Poisonings(g: Game, choices: seq<PassChoices>): (r: nat) {
    if choices == [] then 0
    else
      var k := |choices| - 1;
      var before := Play(g, choices[..k]);
      Poisonings(g, choices[..k]) + if Running(before) && PoisonKills(before, choices[k].night) then 1 else 0
  }

  lemma NightUsesPotions(g: Game, c: NightChoices)
    requires RoundStart(g)
    ensures SaveWorks(g, c) ==> !g.saveUsed && RunNight(g, c).saveUsed
    ensures PoisonKills(g, c) ==> !g.killUsed && RunNight(g, c).killUsed
    ensures g.saveUsed ==> RunNight(g, c).saveUsed
    ensures g.killUsed ==> RunNight(g, c).killUsed
    ensures RunNight(g, c).saveUsed
       <==> g.saveUsed || VictimSaved(BeforeDawn(g, c))
  {
    hide BeforeDawn, ResolveAttack, ResolvePoison;
  }

  ghost predicate Sound(g: Game) {
    Ledger(g) && (g.phase == GameOver || RoundStart(g)) && (g.phase == GameOver <==> g.winner != Nobody)
  }

  lemma PassUsesPotions(g: Game, c: PassChoices)
    requires RoundStart(g)
    ensures Sound(Pass(g, c)) && OnlyDeaths(g.players, Pass(g, c).players)
    ensures SaveWorks(g, c.night) ==> !g.saveUsed && Pass(g, c).saveUsed
    ensures PoisonKills(g, c.night) ==> !g.killUsed && Pass(g, c).killUsed
    ensures (g.saveUsed ==> Pass(g, c).saveUsed) && (g.killUsed ==> Pass(g, c).killUsed)
  {
    PassKeepsLedger(g, c);
    PassOutcome(g, c);
    NightUsesPotions(g, c.night);
    hide RunNight, SaveWorks, PoisonKills, Ledger, OnlyDeaths, BooksThroughPass;
  }

  /** Over every game, however many passes: the books are right between passes, nobody comes
      back to life, and each potion takes effect at most once. */
  lemma {:induction false} PotionsWorkOnce(g: Game, choices: seq<PassChoices>)
    requires RoundStart(g)
    ensures var p := Play(g, choices);
            && Sound(p) && OnlyDeaths(g.players, p.players)
            && Saves(g, choices) + (if g.saveUsed then 1 else 0) <= 1
            && Poisonings(g, choices) + (if g.killUsed then 1 else 0) <= 1
            && (Saves(g, choices) > 0 || g.saveUsed ==> p.saveUsed)
            && (Poisonings(g, choices) > 0 || g.killUsed ==> p.killUsed)
  {
    if choices != [] {
      var k := |choices| - 1;
      var before, c := Play(g, choices[..k]), choices[k];
      PotionsWorkOnce(g, choices[..k]);
      assert Play(g, choices) == if Running(before) then Pass(before, c) else before;
      assert Saves(g, choices)
          == Saves(g, choices[..k]) + if Running(before) && SaveWorks(before, c.night) then 1 else 0;
      assert Poisonings(g, choices)
          == Poisonings(g, choices[..k]) + if Running(before) && PoisonKills(before, c.night) then 1 else 0;
      assert Running(before) ==> RoundStart(before);
      hide *;
      if Running(before) {
        PassUsesPotions(before, c);
        DeathsAddUp(g.players, before.players, Pass(before, c).players);
      }
    }
  }

  lemma DeathsAddUp(a: seq<Seat>, b: seq<Seat>, c: seq<Seat>)
    requires OnlyDeaths(a, b) && OnlyDeaths(b, c)
    ensures OnlyDeaths(a, c)
  {
  }

  /** A guard's save uses up the witch's potion although she did nothing. */
  lemma GuardBurnsSave(g: Game, c: NightChoices)
    requires RoundStart(g) && !g.saveUsed
    requires BeforeDawn(g, c).nightAttacked.Some? && BeforeDawn(g, c).guardTarget == BeforeDawn(g, c).nightAttacked
    ensures RunNight(g, c).saveUsed
  {
    NightUsesPotions(g, c);
  }

  // ---- the end of the game ---------------------------------------------------------------

  /** After k passes the game is over or in round 2k. */
  ghost predicate OnSchedule(g: Game, k: nat) {
    Sound(g) && (g.phase == GameOver || (g.round == 2 * k && g.round <= MAX_ROUNDS))
  }

  lemma ScheduleStep(g: Game, c: PassChoices, k: nat)
    requires OnSchedule(g, k)
    ensures OnSchedule(if Running(g) then Pass(g, c) else g, k + 1)
  {
    hide Pass, Ledger, RunNight, SeatsNumbered;
    if Running(g) {
      PassOutcome(g, c);
    }
  }

  lemma {:induction false} RoundsGoUpByTwo(g: Game, choices: seq<PassChoices>)
    requires OnSchedule(g, 0)
    ensures OnSchedule(Play(g, choices), |choices|)
  {
    hide Pass, OnSchedule, Running;
    if choices != [] {
      var k := |choices| - 1;
      RoundsGoUpByTwo(g, choices[..k]);
      ScheduleStep(Play(g, choices[..k]), choices[k], k);
    }
  }

  /** Whatever is decided, eight passes end the game with a winner or a draw. */
  lemma EightPassesEndTheGame(g: Game, choices: seq<PassChoices>)
    requires RoundStart(g) && g.round == 0 && |choices| >= 8
    ensures Play(g, choices).phase == GameOver && Play(g, choices).winner != Nobody
    ensures Play(g, choices) == Play(g, choices[..8])
  {
    RoundsGoUpByTwo(g, choices[..8]);
    OverStaysOver(g, choices, 8);
  }

  lemma {:induction false} OverStaysOver(g: Game, choices: seq<PassChoices>, n: nat)
    requires n <= |choices| && !Running(Play(g, choices[..n]))
    ensures Play(g, choices) == Play(g, choices[..n])
  {
    hide Pass, Running;
    if n < |choices| {
      var k := |choices| - 1;
      assert choices[..k][..n] == choices[..n];
      OverStaysOver(g, choices[..k], n);
    } else {
      assert choices[..n] == choices;
    }
  }

  // ---- the start -----------------------------------------------------------------------

  lemma {:induction false} WolvesInDeck(players: seq<Seat>, deck: seq<Role>)
    requires |players| == |deck|
    requires forall i | 0 <= i < |deck| :: players[i].role == deck[i] && players[i].alive
    ensures CountWolves(players) == multiset(deck)[Werewolf]
    ensures CountAlive(players) == |players|
  {
    if players != [] {
      var n := |players| - 1;
      WolvesInDeck(players[..n], deck[..n]);
      assert deck == deck[..n] + [deck[n]];
    }
  }

  /** A new game starts with sound books and exactly two wolves, whatever the shuffle. */
  lemma NewGameIsSound(names: seq<string>, shuffled: seq<Role>)
    requires |names| >= 6 && multiset(shuffled) == multiset(RoleDeck(|names|))
    requires |shuffled| == |names|
    ensures RoundStart(InitGame(names, shuffled)) && InitGame(names, shuffled).round == 0
    ensures InitGame(names, shuffled).wolfCount == 2
    ensures Recount(InitGame(names, shuffled).players) == Nobody
  {
    var g := InitGame(names, shuffled);
    WolvesInDeck(g.players, shuffled);
    var rest := seq(|names| - 6, _ => Villager);
    var six := [Werewolf, Werewolf, Seer, Guard, Witch, Hunter];
    assert RoleDeck(|names|) == six + rest;
    assert multiset(six)[Werewolf] == 2;
    assert Werewolf !in rest;
    assert multiset(rest)[Werewolf] == 0;
  }
}
