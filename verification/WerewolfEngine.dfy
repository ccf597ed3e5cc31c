/** The engine and the orchestrator as they run: one mutable game state, changed phase by phase. Each method is shown to be its rule in WerewolfGame. */
module WerewolfEngine {
  import opened Text
  import opened Dicts
  import opened WerewolfGame
  import opened WerewolfTheorems

  class GameState {
    var phase: Phase
    var round: nat
    var players: seq<Seat>
    var aliveCount: int
    var wolfCount: int
    var wolfVotes: Votes
    var guardTarget: Option<nat>
    var seerTarget: Option<nat>
    var seerResult: Option<bool>
    var saveUsed: bool
    var killUsed: bool
    var saveTarget: Option<nat>
    var killTarget: Option<nat>
    var nightDeath: Option<nat>
    var nightAttacked: Option<nat>
    var dayVotes: Votes
    var lynched: Option<nat>
    var hunterTarget: Option<nat>
    var revealed: map<nat, Role>
    var winner: Winner

    ghost function View(): Game
      reads this
    {
      Game(phase, round, players, aliveCount, wolfCount, wolfVotes, guardTarget, seerTarget, seerResult,
           saveUsed, killUsed, saveTarget, killTarget, nightDeath, nightAttacked, dayVotes, lynched, hunterTarget,
           revealed, winner)
    }

    /** A blank state, before any player is seated. */
    constructor ()
      ensures View() == Game(Setup, 0, [], 0, 0, [], None, None, None, false, false, None, None, None, None,
                             [], None, None, map[], Nobody)
    {
      phase, round, winner := Setup, 0, Nobody;
      wolfVotes, dayVotes, revealed := [], [], map[];
      guardTarget, seerTarget, seerResult, saveTarget, killTarget := None, None, None, None, None;
      nightDeath, nightAttacked, lynched, hunterTarget := None, None, None, None;
      saveUsed, killUsed, aliveCount, wolfCount, players := false, false, 0, 0, [];
    }

    /** `sum(1 for p in players if p.role == "Werewolf" and p.alive)`. */
    method CountLivingWolves() returns (n: nat)
      ensures n == CountWolves(players)
    {
      n := 0;
      for i := 0 to |players|
        invariant n == CountWolves(players[..i])
      {
        assert players[..i + 1][..i] == players[..i];
        if players[i].role == Werewolf && players[i].alive { n := n + 1; }
      }
      assert players[..|players|] == players;
    }

    /** Index of the player with this id; `None` for the source's `None`. */
    method GetPlayer(id: nat) returns (found: Option<nat>)
      ensures found == FindById(players, id)
    {
      for i := 0 to |players|
        invariant forall j | 0 <= j < i :: players[j].id != id
      {
        if players[i].id == id { return Some(i); }
      }
      return None;
    }

    method GetPlayerByName(name: string) returns (found: Option<nat>)
      ensures found == FindByName(players, name)
    {
      for i := 0 to |players|
        invariant forall j | 0 <= j < i :: players[j].name != name
      {
        if players[i].name == name { return Some(i); }
      }
      return None;
    }

    /** `[p for p in players if keep(p)]`. */
    method Where(keep: Seat -> bool) returns (found: seq<Seat>)
      ensures found == Select(players, keep)
    {
      found := [];
      for i := 0 to |players|
        invariant found == Select(players[..i], keep)
      {
        assert players[..i + 1][..i] == players[..i];
        if keep(players[i]) { found := found + [players[i]]; }
      }
      assert players[..|players|] == players;
    }

    /** A player dies: no longer alive, one fewer in the counter, role revealed. */
    method Bury(i: nat)
      requires i < |players| && FindById(players, players[i].id) == Some(i)
      modifies this`players, this`aliveCount, this`revealed
      ensures View() == Kill(old(View()), old(players[i].id))
    {
      players := players[i := players[i].(alive := false)];
      aliveCount := aliveCount - 1;
      revealed := revealed[players[i].id := players[i].role];
    }
  }

  const PHASE_ORDER := [NightWolves, NightSeer, NightGuard, NightWitch, NightResolve,
                        DayAnnounce, DayDiscussion, DayVote, DayResolve]

  /** Place of a phase in the order, or -1. */
  function Place(phase: Phase): (r: int)
    ensures -1 <= r < 9
  {
    match phase
    case NightWolves => 0
    case NightSeer => 1
    case NightGuard => 2
    case NightWitch => 3
    case NightResolve => 4
    case DayAnnounce => 5
    case DayDiscussion => 6
    case DayVote => 7
    case DayResolve => 8
    case _ => -1
  }

  lemma OrderIsPlace(k: nat)
    requires k < 9
    ensures Place(PHASE_ORDER[k]) == k
  {
  }

  class GameEngine {
    /** A new game, given the shuffled roles. */
    static method InitGame(names: seq<string>, shuffled: seq<Role>) returns (s: GameState)
      requires |names| >= 6 && |shuffled| == |names|
      requires multiset(shuffled) == multiset(RoleDeck(|names|))
      ensures fresh(s) && s.View() == WerewolfGame.InitGame(names, shuffled)
      ensures RoundStart(s.View()) && s.round == 0
    {
      hide RoundStart, CountWolves, RoleDeck;
      s := new GameState();
      s.phase := NightWolves;
      s.players := SeatPlayers(names, shuffled);
      s.aliveCount := |s.players|;
      s.wolfCount := s.CountLivingWolves();
      NewGameIsSound(names, shuffled);
    }

    static method SeatPlayers(names: seq<string>, roles: seq<Role>) returns (players: seq<Seat>)
      requires |names| == |roles|
      ensures players == WerewolfGame.InitGame(names, roles).players
    {
      players := [];
      for i := 0 to |names|
        invariant |players| == i && forall j | 0 <= j < i :: players[j] == Seat(names[j], roles[j], j, true)
      {
        players := players + [Seat(names[i], roles[i], i, true)];
      }
    }

    /** `phase_order.index(phase)`, or -1 when it is not listed. */
    static method IndexOfPhase(phase: Phase) returns (index: int)
      ensures index == Place(phase)
    {
      index := 0;
      while index < 9
        invariant 0 <= index <= 9
        invariant Place(phase) == -1 || Place(phase) >= index
      {
        OrderIsPlace(index);
        if PHASE_ORDER[index] == phase { return; }
        if Place(phase) == index { SamePlaceSamePhase(phase, PHASE_ORDER[index]); }
        index := index + 1;
      }
      index := -1;
    }

    static method AdvancePhase(s: GameState)
      modifies s
      ensures s.View() == WerewolfGame.AdvancePhase(old(s.View()))
    {
      hide WerewolfGame.AdvancePhase;
      var current := IndexOfPhase(s.phase);
      if 0 <= current < 8 {
        OrderIsPlace(current + 1);
        SetPhase(s, PHASE_ORDER[current + 1]);
      } else if s.phase == DayResolve {
        EndRound(s);
      } else {
        NoNextPhase(s.View());
      }
    }

    static method EndRound(s: GameState)
      requires s.phase == DayResolve
      modifies s
      ensures s.View() == WerewolfGame.AdvancePhase(old(s.View()))
    {
      hide NewRound;
      s.round := s.round + 1;
      if s.round > MAX_ROUNDS {
        s.phase, s.winner := GameOver, Draw;
      } else {
        StartRound(s);
      }
    }

    static method SetPhase(s: GameState, phase: Phase)
      requires 0 <= Place(s.phase) < 8 && Place(phase) == Place(s.phase) + 1
      modifies s`phase
      ensures s.View() == WerewolfGame.AdvancePhase(old(s.View()))
    {
      s.phase := phase;
    }

    /** Clears the night's and the day's records. */
    static method StartRound(s: GameState)
      modifies s`phase, s`wolfVotes, s`guardTarget, s`seerTarget, s`seerResult, s`saveTarget, s`killTarget,
               s`nightDeath, s`nightAttacked, s`dayVotes, s`lynched, s`hunterTarget
      ensures s.View() == NewRound(old(s.View()))
    {
      hide WerewolfGame.ResetNight, WerewolfGame.ResetOutcome;
      s.phase := NightWolves;
      ResetNight(s);
      ResetOutcome(s);
    }

    static method ResetNight(s: GameState)
      modifies s`wolfVotes, s`guardTarget, s`seerTarget, s`seerResult, s`saveTarget, s`killTarget
      ensures s.View() == WerewolfGame.ResetNight(old(s.View()))
    {
      s.wolfVotes := [];
      s.guardTarget, s.seerTarget, s.seerResult := None, None, None;
      s.saveTarget, s.killTarget := None, None;
    }

    static method ResetOutcome(s: GameState)
      modifies s`nightDeath, s`nightAttacked, s`dayVotes, s`lynched, s`hunterTarget
      ensures s.View() == WerewolfGame.ResetOutcome(old(s.View()))
    {
      s.nightDeath, s.nightAttacked := None, None;
      s.dayVotes := [];
      s.lynched, s.hunterTarget := None, None;
    }

    static method ResolveVictim(s: GameState)
      requires s.nightAttacked.Some? ==> FindById(s.players, s.nightAttacked.value).Some?
      modifies s
      ensures s.View() == ResolveAttack(old(s.View()))
    {
      hide Kill;
      var victimId := s.nightAttacked;
      var guardSaved := s.guardTarget.Some? && s.guardTarget == victimId;
      if victimId.None? {
        s.nightDeath := None;
      } else if guardSaved || s.saveTarget == victimId {
        s.nightDeath, s.saveUsed := None, true;
      } else {
        s.nightDeath := victimId;
        var victim := s.GetPlayer(victimId.value);
        s.Bury(victim.value);
      }
    }

    static method ResolveWitchKill(s: GameState)
      modifies s
      ensures s.View() == ResolvePoison(old(s.View()))
    {
      hide Kill;
      if s.killTarget.Some? {
        var target := s.GetPlayer(s.killTarget.value);
        if target.Some? && s.players[target.value].alive {
          s.Bury(target.value);
          s.killUsed := true;
        }
      }
    }

    static method ResolveNight(s: GameState)
      requires s.nightAttacked.Some? ==> FindById(s.players, s.nightAttacked.value).Some?
      modifies s
      ensures s.View() == WerewolfGame.ResolveNight(old(s.View()))
    {
      hide ResolveAttack, ResolvePoison;
      ResolveVictim(s);
      ResolveWitchKill(s);
      s.wolfCount := s.CountLivingWolves();
    }

    /** `vote_counts`, with the keys in insertion order. */
    static method CountVotes(votes: seq<nat>) returns (counts: map<nat, nat>, targets: seq<nat>)
      ensures forall t :: t in targets <==> t in votes
      ensures forall t :: t in counts <==> t in votes
      ensures forall t | t in votes :: counts[t] == multiset(votes)[t]
      ensures forall a, b | 0 <= a < b < |targets| :: targets[a] != targets[b]
    {
      counts, targets := map[], [];
      for i := 0 to |votes|
        invariant forall t :: t in targets <==> t in votes[..i]
        invariant forall t :: t in counts <==> t in votes[..i]
        invariant forall t | t in counts :: counts[t] == multiset(votes[..i])[t]
        invariant forall a, b | 0 <= a < b < |targets| :: targets[a] != targets[b]
      {
        assert votes[..i + 1] == votes[..i] + [votes[i]];
        assert votes[i] !in votes[..i] ==> multiset(votes[..i])[votes[i]] == 0;
        if votes[i] !in counts { targets := targets + [votes[i]]; }
        counts := counts[votes[i] := (if votes[i] in counts then counts[votes[i]] else 0) + 1];
      }
      assert votes[..|votes|] == votes;
    }

    static method MaxCount(counts: map<nat, nat>, targets: seq<nat>) returns (most: nat)
      requires targets != [] && forall t | t in targets :: t in counts
      ensures forall t | t in targets :: counts[t] <= most
      ensures exists t | t in targets :: counts[t] == most
    {
      most := counts[targets[0]];
      for i := 1 to |targets|
        invariant forall j | 0 <= j < i :: counts[targets[j]] <= most
        invariant exists j | 0 <= j < i :: counts[targets[j]] == most
      {
        if counts[targets[i]] > most { most := counts[targets[i]]; }
      }
    }

    static method TopTargets(counts: map<nat, nat>, targets: seq<nat>, most: nat) returns (top: seq<nat>)
      requires forall t | t in targets :: t in counts
      requires forall a, b | 0 <= a < b < |targets| :: targets[a] != targets[b]
      ensures forall t :: t in top <==> t in targets && counts[t] == most
      ensures forall a, b | 0 <= a < b < |top| :: top[a] != top[b]
    {
      top := [];
      for i := 0 to |targets|
        invariant forall t :: t in top <==> t in targets[..i] && counts[t] == most
        invariant forall a, b | 0 <= a < b < |top| :: top[a] != top[b]
      {
        assert targets[..i + 1] == targets[..i] + [targets[i]];
        assert targets[i] !in targets[..i];
        if counts[targets[i]] == most { top := top + [targets[i]]; }
      }
      assert targets[..|targets|] == targets;
    }

    static method TallyLynch(votes: seq<nat>) returns (lynched: Option<nat>)
      requires votes != []
      ensures lynched == LynchOf(votes)
    {
      hide LynchOf;
      var counts, targets := CountVotes(votes);
      assert votes[0] in targets;
      var maxVotes := MaxCount(counts, targets);
      var top := TopTargets(counts, targets, maxVotes);
      if |top| == 1 {
        assert top[0] in top && forall t | t in top :: t == top[0];
        lynched := Some(top[0]);
        PluralityFound(votes, top[0]);
      } else {
        assert exists t :: t in top;
        assert top[0] in top && top[1] in top;
        lynched := None;
        TieFound(votes, top[0], top[1]);
      }
    }

    static method Lynch(s: GameState)
      modifies s
      ensures s.View() == ResolveLynch(old(s.View()))
    {
      hide Kill;
      if s.dayVotes == [] {
        s.lynched := None;
        return;
      }
      s.lynched := TallyLynch(Targets(s.dayVotes));
      if s.lynched.Some? {
        var target := s.GetPlayer(s.lynched.value);
        if target.Some? && s.players[target.value].alive {
          var role := s.players[target.value].role;
          s.Bury(target.value);
          if role == Hunter && s.hunterTarget.Some? {
            var shot := s.GetPlayer(s.hunterTarget.value);
            if shot.Some? && s.players[shot.value].alive {
              s.Bury(shot.value);
            }
          }
        }
      }
    }

    static method ResolveDay(s: GameState)
      modifies s
      ensures s.View() == WerewolfGame.ResolveDay(old(s.View()))
    {
      hide ResolveLynch;
      Lynch(s);
      s.wolfCount := s.CountLivingWolves();
      var villageCount := s.aliveCount - s.wolfCount;
      if s.wolfCount <= 0 {
        s.winner, s.phase := Village, GameOver;
      } else if s.wolfCount >= villageCount {
        s.winner, s.phase := Werewolves, GameOver;
      }
    }
  }

  lemma NoNextPhase(g: Game)
    requires !(0 <= Place(g.phase) < 8) && g.phase != DayResolve
    ensures WerewolfGame.AdvancePhase(g) == g
  {
  }

  lemma SamePlaceSamePhase(a: Phase, b: Phase)
    requires 0 <= Place(a) && Place(a) == Place(b)
    ensures a == b
  {
  }

  lemma PluralityFound(votes: seq<nat>, x: nat)
    requires x in votes && forall y | y in votes && y != x :: multiset(votes)[y] < multiset(votes)[x]
    ensures LynchOf(votes) == Some(x)
  {
    forall y | y != x ensures multiset(votes)[y] < multiset(votes)[x] {
      assert x in multiset(votes);
      assert y !in votes ==> y !in multiset(votes);
    }
    LynchIsStrictPlurality(votes, x);
  }

  lemma TieFound(votes: seq<nat>, a: nat, b: nat)
    requires a != b && a in votes && b in votes && multiset(votes)[a] == multiset(votes)[b]
    requires forall t | t in votes :: multiset(votes)[t] <= multiset(votes)[a]
    ensures LynchOf(votes) == None
  {
  }

  class WerewolfOrchestrator {
    const state: GameState

    constructor (state: GameState)
      ensures this.state == state
    {
      this.state := state;
    }

    method CollectWolfVotes(wolves: seq<Seat>, names: seq<string>)
      modifies state`wolfVotes
      ensures state.View() == old(state.View()).(wolfVotes := PackVotes(state.players, wolves, names, old(state.wolfVotes)))
    {
      ghost var start := state.View();
      ghost var pack := wolves;
      for k := 0 to |wolves|
        invariant state.View() == start.(wolfVotes := PackVotes(start.players, pack[..k], names, start.wolfVotes))
      {
        assert pack[..k + 1][..k] == pack[..k];
        var target := state.GetPlayerByName(NameAt(names, k));
        if target.Some? && state.players[target.value].alive && state.players[target.value].role != Werewolf {
          state.wolfVotes := Put(state.wolfVotes, wolves[k].id, state.players[target.value].id);
        }
      }
      assert pack[..|wolves|] == pack;
    }

    method VoteTogether(wolves: seq<Seat>, target: nat)
      modifies state`wolfVotes
      ensures state.View() == old(state.View()).(wolfVotes := AllFor(wolves, target, old(state.wolfVotes)))
    {
      ghost var start := state.View();
      ghost var pack := wolves;
      for k := 0 to |wolves|
        invariant state.View() == start.(wolfVotes := AllFor(pack[..k], target, start.wolfVotes))
      {
        assert pack[..k + 1][..k] == pack[..k];
        state.wolfVotes := Put(state.wolfVotes, wolves[k].id, target);
      }
      assert pack[..|wolves|] == pack;
    }

    method NightWolves(c: NightChoices)
      modifies state`wolfVotes, state`nightAttacked
      ensures state.View() == DetermineVictim(WolvesVote(old(state.View()), c), c)
    {
      hide WolvesVote, DetermineVictim;
      HuntTogether(c);
      DetermineWolfVictim(c);
    }

    /** The pack's votes: a lone wolf's choice, or the votes of all with a random fallback. */
    method HuntTogether(c: NightChoices)
      modifies state`wolfVotes
      ensures state.View() == WolvesVote(old(state.View()), c)
    {
      hide PackVotes, AllFor;
      var wolves := state.Where(LivingWolf);
      var prey := state.Where(LivingPrey);
      if |wolves| <= 1 {
        if wolves != [] && prey != [] {
          CollectWolfVotes(wolves, c.wolfNames);
        }
      } else {
        CollectWolfVotes(wolves, c.wolfNames);
        if state.wolfVotes == [] && prey != [] {
          VoteTogether(wolves, Pick(prey, c.prey).id);
        }
      }
    }

    method DetermineWolfVictim(c: NightChoices)
      modifies state`nightAttacked
      ensures state.View() == DetermineVictim(old(state.View()), c)
    {
      if state.wolfVotes != [] {
        var victim := MaxByCount(c.setOrder, Targets(state.wolfVotes));
        state.nightAttacked := Some(victim);
      } else {
        var prey := state.Where(LivingPrey);
        state.nightAttacked := if prey == [] then None else Some(Pick(prey, c.lateVictim).id);
      }
    }

    /** `max(set(votes), key=votes.count)`. */
    method MaxByCount(setOrder: seq<nat>, votes: seq<nat>) returns (best: nat)
      requires votes != []
      ensures best == MostVoted(setOrder, votes)
    {
      hide Among, FirstMost;
      var candidates := Among(setOrder, votes) + votes;
      best := candidates[0];
      FirstOfOne(candidates[..1], votes);
      for i := 1 to |candidates|
        invariant best == FirstMost(candidates[..i], votes)
      {
        FirstOfMore(candidates[..i + 1], votes);
        assert candidates[..i + 1][..i] == candidates[..i];
        if multiset(votes)[candidates[i]] > multiset(votes)[best] { best := candidates[i]; }
      }
      assert candidates[..|candidates|] == candidates;
    }

    method NightSeer(c: NightChoices)
      modifies state`seerTarget, state`seerResult
      ensures state.View() == SeerLooks(old(state.View()), c)
    {
      var seers := state.Where((p: Seat) => p.alive && p.role == Seer);
      var living := state.Where((p: Seat) => p.alive);
      if seers == [] || |living| <= 1 { return; }
      var target := state.GetPlayerByName(c.seerName);
      if target.Some? && state.players[target.value].alive {
        state.seerTarget := Some(state.players[target.value].id);
        state.seerResult := Some(state.players[target.value].role == Werewolf);
      }
    }

    method NightGuard(c: NightChoices)
      modifies state`guardTarget
      ensures state.View() == GuardProtects(old(state.View()), c)
    {
      var guards := state.Where((p: Seat) => p.alive && p.role == Guard);
      var living := state.Where((p: Seat) => p.alive);
      if guards == [] || |living| <= 1 { return; }
      var target := state.GetPlayerByName(c.guardName);
      if target.Some? && state.players[target.value].alive {
        state.guardTarget := Some(state.players[target.value].id);
      }
    }

    method NightWitch(c: NightChoices)
      modifies state`saveTarget, state`killTarget
      ensures state.View() == WitchPoisons(WitchSaves(old(state.View()), c), c)
    {
      var witches := state.Where((p: Seat) => p.alive && p.role == Witch);
      if witches == [] { return; }
      DecideSave(c);
      DecidePoison(c);
    }

    method DecideSave(c: NightChoices)
      requires WithRole(state.players, Witch) != []
      modifies state`saveTarget
      ensures state.View() == WitchSaves(old(state.View()), c)
    {
      if !state.saveUsed && state.nightAttacked.Some? {
        var attacked := state.GetPlayer(state.nightAttacked.value);
        if attacked.Some? && state.players[attacked.value].alive && c.save {
          state.saveTarget := state.nightAttacked;
        }
      }
    }

    method DecidePoison(c: NightChoices)
      requires WithRole(state.players, Witch) != []
      modifies state`killTarget
      ensures state.View() == WitchPoisons(old(state.View()), c)
    {
      if !state.killUsed && c.poisonName != "" && c.poisonName != "no_kill" {
        var target := state.GetPlayerByName(c.poisonName);
        if target.Some? && state.players[target.value].alive {
          state.killTarget := Some(state.players[target.value].id);
        }
      }
    }

    /** The four sub-phases of the night before its resolution. */
    method NightActions(c: NightChoices)
      modifies state
      ensures state.View() == BeforeDawn(old(state.View()), c)
    {
      hide WolvesVote, DetermineVictim, SeerLooks, GuardProtects, WitchSaves, WitchPoisons;
      state.phase := Phase.NightWolves;
      NightWolves(c);
      state.phase := Phase.NightSeer;
      NightSeer(c);
      state.phase := Phase.NightGuard;
      NightGuard(c);
      state.phase := Phase.NightWitch;
      NightWitch(c);
    }

    method RunNight(c: NightChoices)
      requires RoundStart(state.View())
      modifies state
      ensures state.View() == WerewolfGame.RunNight(old(state.View()), c)
    {
      hide BeforeDawn, Ledger, AliveId, WerewolfGame.ResolveNight, DawnReady, RoundStart, WerewolfGame.Announce;
      NightOnlyNotes(state.View(), c);
      NightActions(c);
      VictimIsListed(state.View());
      state.phase := NightResolve;
      GameEngine.ResolveNight(state);
      Announce();
    }

    method Announce()
      modifies state`phase
      ensures state.View() == WerewolfGame.Announce(old(state.View()))
    {
      state.phase := if state.winner != Nobody then GameOver else DayAnnounce;
    }

    method CollectDayVotes(voters: seq<Seat>, names: seq<string>)
      modifies state`dayVotes
      ensures state.View() == old(state.View()).(dayVotes := BallotOf(state.players, voters, names, old(state.dayVotes)))
    {
      ghost var start := state.View();
      ghost var seats := voters;
      for k := 0 to |voters|
        invariant state.View() == start.(dayVotes := BallotOf(start.players, seats[..k], names, start.dayVotes))
      {
        assert seats[..k + 1][..k] == seats[..k];
        var living := state.Where((p: Seat) => p.alive);
        if |living| > 1 {
          var target := state.GetPlayerByName(NameAt(names, k));
          if target.Some? && state.players[target.value].alive {
            state.dayVotes := Put(state.dayVotes, voters[k].id, state.players[target.value].id);
          }
        }
      }
      assert seats[..|voters|] == seats;
    }

    method HoldVote(d: DayChoices)
      modifies state`dayVotes
      ensures state.View() == DayVotes(old(state.View()), d)
    {
      var living := state.Where((p: Seat) => p.alive);
      CollectDayVotes(living, d.voteNames);
      if state.dayVotes == [] && |living| >= 2 {
        var voter := Pick(living, d.voter);
        var voterId := voter.id;
        var others := state.Where((p: Seat) => p.alive && p.id != voterId);
        if others != [] {
          state.dayVotes := Put(state.dayVotes, voter.id, Pick(others, d.target).id);
        }
      }
    }

    method Revenge(shotName: string)
      requires SeatsNumbered(state.players)
      modifies state`hunterTarget, state`players, state`aliveCount, state`revealed
      ensures state.View() == HunterRevenge(old(state.View()), shotName)
    {
      if state.lynched.None? { return; }
      var lynchedId := state.lynched.value;
      var lynched := state.GetPlayer(lynchedId);
      if lynched.None? || state.players[lynched.value].role != Hunter { return; }
      var alive := state.Where((p: Seat) => p.alive && p.id != lynchedId);
      if alive == [] { return; }
      if shotName != "" && shotName != "none" {
        var target := state.GetPlayerByName(shotName);
        if target.Some? && state.players[target.value].alive {
          ById(state.players, state.players[target.value].id);
          state.hunterTarget := Some(state.players[target.value].id);
          state.Bury(target.value);
        }
      }
    }

    method RunDay(d: DayChoices)
      requires Ledger(state.View()) && state.hunterTarget == None
      modifies state
      ensures state.View() == WerewolfGame.RunDay(old(state.View()), d)
    {
      hide DayVotes, WerewolfGame.ResolveDay, HunterRevenge;
      if state.winner != Nobody {
        state.phase := GameOver;
        return;
      }
      DayKeepsLedger(state.View(), d);
      state.phase := DayDiscussion;
      state.phase := DayVote;
      HoldVote(d);
      state.phase := DayResolve;
      GameEngine.ResolveDay(state);
      Revenge(d.shotName);
    }

    /** One turn of the loop's body. */
    method RunPass(c: PassChoices)
      requires RoundStart(state.View())
      modifies state
      ensures state.View() == Pass(old(state.View()), c)
    {
      hide Ledger, OnlyDeaths, WerewolfGame.RunNight, WerewolfGame.RunDay, WerewolfGame.AdvancePhase;
      DawnIsReady(state.View(), c);
      RunNight(c.night);
      if state.winner != Nobody { return; }
      RunDay(c.day);
      if state.phase == DayResolve {
        state.round := state.round + 1;
        GameEngine.AdvancePhase(state);
      }
    }

    /** The game loop. */
    method RunGame(choices: nat -> PassChoices) returns (ghost taken: seq<PassChoices>)
      requires RoundStart(state.View()) && state.round == 0
      modifies state
      ensures state.View() == Play(old(state.View()), taken) && |taken| <= 8
      ensures forall k | 0 <= k < |taken| :: taken[k] == choices(k)
      ensures state.phase == GameOver && state.winner != Nobody
      ensures Sound(state.View()) && OnlyDeaths(old(state.players), state.players)
    {
      hide OnSchedule, Pass, Sound, RoundStart, OnlyDeaths;
      ghost var start := state.View();
      ScheduleStart(start);
      taken := [];
      var n := 0;
      while state.phase != GameOver && state.round < 15
        invariant |taken| == n <= 8 && forall k | 0 <= k < n :: taken[k] == choices(k)
        invariant state.View() == Play(start, taken)
        invariant OnSchedule(state.View(), n)
        decreases 8 - n
      {
        ghost var before := state.View();
        OnScheduleMeans(before, n);
        RunPass(choices(n));
        ScheduleStep(before, choices(n), n);
        PlayOneMore(start, taken, choices(n));
        taken := taken + [choices(n)];
        n := n + 1;
      }
      ScheduleEnds(state.View(), n);
      PotionsWorkOnce(start, taken);
    }
  }

  lemma PlayOneMore(g: Game, taken: seq<PassChoices>, c: PassChoices)
    requires Running(Play(g, taken))
    ensures Play(g, taken + [c]) == Pass(Play(g, taken), c)
  {
    hide Pass, Running;
    assert (taken + [c])[..|taken|] == taken;
  }

  lemma ScheduleStart(g: Game)
    requires RoundStart(g) && g.round == 0
    ensures OnSchedule(g, 0)
  {
  }

  lemma ScheduleEnds(g: Game, k: nat)
    requires OnSchedule(g, k) && !Running(g)
    ensures g.phase == GameOver && g.winner != Nobody && Sound(g)
  {
  }

  lemma FirstOfOne(candidates: seq<nat>, votes: seq<nat>)
    requires |candidates| == 1
    ensures FirstMost(candidates, votes) == candidates[0]
  {
  }

  lemma FirstOfMore(candidates: seq<nat>, votes: seq<nat>)
    requires |candidates| > 1
    ensures var last := candidates[|candidates| - 1];
            var best := FirstMost(candidates[..|candidates| - 1], votes);
            FirstMost(candidates, votes) == if multiset(votes)[last] > multiset(votes)[best] then last else best
  {
  }

  lemma VictimIsListed(n: Game)
    requires DawnReady(n)
    ensures n.nightAttacked.Some? ==> FindById(n.players, n.nightAttacked.value).Some?
  {
  }

  lemma DawnIsReady(g: Game, c: PassChoices)
    requires RoundStart(g)
    ensures Ledger(WerewolfGame.RunNight(g, c.night)) && WerewolfGame.RunNight(g, c.night).hunterTarget == None
  {
    hide BeforeDawn, OnlyDeaths, WerewolfGame.ResolveNight;
    PassKeepsLedger(g, c);
  }

  lemma OnScheduleMeans(g: Game, k: nat)
    requires OnSchedule(g, k) && Running(g)
    ensures RoundStart(g) && k < 8
  {
  }
}
