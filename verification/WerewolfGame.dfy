/** The rules of the Werewolf game as pure functions on a snapshot of the game state: the night
    and day phases, the resolutions and the phase order. The players' decisions are inputs. */
module WerewolfGame {
  import opened Text
  import opened Dicts

  datatype Role = Werewolf | Seer | Guard | Witch | Hunter | Villager

  datatype Phase =
    | Setup | NightWolves | NightSeer | NightGuard | NightWitch | NightResolve
    | DayAnnounce | DayDiscussion | DayVote | DayResolve | GameOver

  datatype Winner = Nobody | Village | Werewolves | Draw

  /** `id` is the number in the source's "player_<i>". */
  datatype Seat = Seat(name: string, role: Role, id: nat, alive: bool)

  /** From voter to target. */
  type Votes = Dict<nat, nat>

  datatype Game = Game(
    phase: Phase, round: nat, players: seq<Seat>, aliveCount: int, wolfCount: int,
    wolfVotes: Votes, guardTarget: Option<nat>, seerTarget: Option<nat>, seerResult: Option<bool>,
    saveUsed: bool, killUsed: bool, saveTarget: Option<nat>, killTarget: Option<nat>,
    nightDeath: Option<nat>, nightAttacked: Option<nat>,
    dayVotes: Votes, lynched: Option<nat>, hunterTarget: Option<nat>,
    revealed: map<nat, Role>, winner: Winner)

  const MAX_ROUNDS := 15

  /** What the players and the random generator decide in one night. Names are free text. */
  datatype NightChoices = NightChoices(wolfNames: seq<string>, prey: nat, setOrder: seq<nat>, lateVictim: nat,
                                       seerName: string, guardName: string, save: bool, poisonName: string)

  /** The same for one day; `voteNames` has one name per living player. */
  datatype DayChoices = DayChoices(voteNames: seq<string>, voter: nat, target: nat, shotName: string)

  datatype PassChoices = PassChoices(night: NightChoices, day: DayChoices)

  // ---- lookups -----------------------------------------------------------------------

  /** Index of the first player with this id. */
  function FindById(players: seq<Seat>, id: nat): (r: Option<nat>)
    ensures r.Some? ==> r.value < |players| && players[r.value].id == id
    ensures r.Some? ==> forall j | 0 <= j < r.value :: players[j].id != id
    ensures r.None? <==> forall j | 0 <= j < |players| :: players[j].id != id
  {
    if players == [] then None
    else
      match FindById(players[..|players| - 1], id)
      case Some(i) => Some(i)
      case None => if players[|players| - 1].id == id then Some(|players| - 1) else None
  }

  function FindByName(players: seq<Seat>, name: string): (r: Option<nat>)
    ensures r.Some? ==> r.value < |players| && players[r.value].name == name
    ensures r.Some? ==> forall j | 0 <= j < r.value :: players[j].name != name
    ensures r.None? <==> forall j | 0 <= j < |players| :: players[j].name != name
  {
    if players == [] then None
    else
      match FindByName(players[..|players| - 1], name)
      case Some(i) => Some(i)
      case None => if players[|players| - 1].name == name then Some(|players| - 1) else None
  }

  /** The living player a decision names, if there is one. */
  function LivingTarget(players: seq<Seat>, name: string): (r: Option<nat>)
    ensures r.Some? ==> exists i | 0 <= i < |players| :: players[i].id == r.value && players[i].alive && players[i].name == name
  {
    match FindByName(players, name)
    case None => None
    case Some(i) => if players[i].alive then Some(players[i].id) else None
  }

  predicate LivingWolf(p: Seat) { p.alive && p.role == Werewolf }
  predicate LivingPrey(p: Seat) { p.alive && p.role != Werewolf }

  /** Players kept by a test, in table order. */
  function Select(players: seq<Seat>, keep: Seat -> bool): (r: seq<Seat>)
    ensures forall p :: p in r <==> p in players && keep(p)
  {
    if players == [] then []
    else Select(players[..|players| - 1], keep) + if keep(players[|players| - 1]) then [players[|players| - 1]] else []
  }

  function Wolves(players: seq<Seat>): (r: seq<Seat>) { Select(players, LivingWolf) }
  function Prey(players: seq<Seat>): (r: seq<Seat>) { Select(players, LivingPrey) }
  function Living(players: seq<Seat>): (r: seq<Seat>) { Select(players, (p: Seat) => p.alive) }
  function WithRole(players: seq<Seat>, role: Role): (r: seq<Seat>) { Select(players, (p: Seat) => p.alive && p.role == role) }

  function CountAlive(players: seq<Seat>): (r: nat) {
    if players == [] then 0
    else CountAlive(players[..|players| - 1]) + if players[|players| - 1].alive then 1 else 0
  }

  function CountWolves(players: seq<Seat>): (r: nat) {
    if players == [] then 0
    else CountWolves(players[..|players| - 1]) + if LivingWolf(players[|players| - 1]) then 1 else 0
  }

  function Pick<T>(options: seq<T>, n: nat): (r: T)
    requires options != []
    ensures r in options
  {
    options[n % |options|]
  }

  function NameAt(names: seq<string>, k: nat): (r: string) {
    if k < |names| then names[k] else ""
  }

  // ---- votes -------------------------------------------------------------------------

  function Targets(votes: Votes): (r: seq<nat>)
    ensures |r| == |votes| && forall i | 0 <= i < |r| :: r[i] == votes[i].1
  {
    seq(|votes|, i requires 0 <= i < |votes| => votes[i].1)
  }

  /** First of the candidates with the highest vote count. */
  function FirstMost(candidates: seq<nat>, votes: seq<nat>): (r: nat)
    requires candidates != []
    ensures r in candidates
    ensures forall c | c in candidates :: multiset(votes)[c] <= multiset(votes)[r]
  {
    if |candidates| == 1 then candidates[0]
    else
      var last := candidates[|candidates| - 1];
      var best := FirstMost(candidates[..|candidates| - 1], votes);
      assert forall c | c in candidates :: c in candidates[..|candidates| - 1] || c == last;
      if multiset(votes)[last] > multiset(votes)[best] then last else best
  }

  /** `max(set(votes), key=votes.count)`: the set is walked in the order given, ids that were
      voted for but are missing from it coming last. */
  function MostVoted(setOrder: seq<nat>, votes: seq<nat>): (r: nat)
    requires votes != []
    ensures r in votes
    ensures forall c | c in votes :: multiset(votes)[c] <= multiset(votes)[r]
  {
    FirstMost(Among(setOrder, votes) + votes, votes)
  }

  function Among(order: seq<nat>, votes: seq<nat>): (r: seq<nat>)
    ensures forall c | c in r :: c in votes
  {
    if order == [] then []
    else Among(order[..|order| - 1], votes) + if order[|order| - 1] in votes then [order[|order| - 1]] else []
  }

  /** Whom a day vote lynches: the most voted target unless another has as many votes. */
  function LynchOf(votes: seq<nat>): (r: Option<nat>) {
    if votes == [] then None
    else
      var top := FirstMost(votes, votes);
      if exists c | c in votes :: c != top && multiset(votes)[c] == multiset(votes)[top] then None else Some(top)
  }

  // ---- one death -----------------------------------------------------------------------

  function KillAt(players: seq<Seat>, i: nat): (r: seq<Seat>)
    requires i < |players|
  {
    players[i := players[i].(alive := false)]
  }

  /** What every kill site does: the player is dead, the counter is one less, the role is shown. */
  function Kill(g: Game, id: nat): (r: Game)
    ensures r == g.(players := r.players, aliveCount := r.aliveCount, revealed := r.revealed)
  {
    match FindById(g.players, id)
    case None => g
    case Some(i) =>
      g.(players := KillAt(g.players, i), aliveCount := g.aliveCount - 1,
         revealed := g.revealed[id := g.players[i].role])
  }

  predicate AliveId(players: seq<Seat>, id: nat) {
    FindById(players, id).Some? && players[FindById(players, id).value].alive
  }

  // ---- night ---------------------------------------------------------------------------

  /** The prey a wolf's decision names, if it is a living player and no wolf. */
  function PreyNamed(players: seq<Seat>, name: string): (r: Option<nat>)
    ensures r.Some? ==> exists i | 0 <= i < |players| :: players[i].id == r.value && LivingPrey(players[i])
  {
    match FindByName(players, name)
    case None => None
    case Some(i) => if LivingPrey(players[i]) then Some(players[i].id) else None
  }

  function PackVotes(players: seq<Seat>, wolves: seq<Seat>, names: seq<string>, votes: Votes): (r: Votes) {
    if wolves == [] then votes
    else
      var k := |wolves| - 1;
      var before := PackVotes(players, wolves[..k], names, votes);
      match PreyNamed(players, NameAt(names, k))
      case None => before
      case Some(target) => Put(before, wolves[k].id, target)
  }

  function AllFor(wolves: seq<Seat>, target: nat, votes: Votes): (r: Votes) {
    if wolves == [] then votes
    else Put(AllFor(wolves[..|wolves| - 1], target, votes), wolves[|wolves| - 1].id, target)
  }

  function WolvesVote(g: Game, c: NightChoices): (r: Game)
    ensures r == g.(wolfVotes := r.wolfVotes)
  {
    var wolves := Wolves(g.players);
    var prey := Prey(g.players);
    if |wolves| <= 1 then
      if wolves != [] && prey != [] then g.(wolfVotes := PackVotes(g.players, wolves, c.wolfNames, g.wolfVotes)) else g
    else
      var votes := PackVotes(g.players, wolves, c.wolfNames, g.wolfVotes);
      if votes == [] && prey != [] then g.(wolfVotes := AllFor(wolves, Pick(prey, c.prey).id, votes))
      else g.(wolfVotes := votes)
  }

  function DetermineVictim(g: Game, c: NightChoices): (r: Game)
    ensures r == g.(nightAttacked := r.nightAttacked)
  {
    if g.wolfVotes != [] then
      g.(nightAttacked := Some(MostVoted(c.setOrder, Targets(g.wolfVotes))))
    else
      var prey := Prey(g.players);
      g.(nightAttacked := if prey == [] then None else Some(Pick(prey, c.lateVictim).id))
  }

  function SeerLooks(g: Game, c: NightChoices): (r: Game)
    ensures r == g.(seerTarget := r.seerTarget, seerResult := r.seerResult)
  {
    var seers := WithRole(g.players, Seer);
    if seers == [] || |Living(g.players)| <= 1 then g
    else
      match FindByName(g.players, c.seerName)
      case None => g
      case Some(i) =>
        if g.players[i].alive then
          g.(seerTarget := Some(g.players[i].id), seerResult := Some(g.players[i].role == Werewolf))
        else g
  }

  function GuardProtects(g: Game, c: NightChoices): (r: Game)
    ensures r == g.(guardTarget := r.guardTarget)
  {
    if WithRole(g.players, Guard) == [] || |Living(g.players)| <= 1 then g
    else
      match LivingTarget(g.players, c.guardName)
      case None => g
      case Some(id) => g.(guardTarget := Some(id))
  }

  function WitchSaves(g: Game, c: NightChoices): (r: Game)
    ensures r == g.(saveTarget := r.saveTarget)
    ensures r.saveTarget == g.saveTarget || (!g.saveUsed && r.saveTarget == g.nightAttacked)
  {
    if WithRole(g.players, Witch) != [] && !g.saveUsed && g.nightAttacked.Some?
       && AliveId(g.players, g.nightAttacked.value) && c.save
    then g.(saveTarget := g.nightAttacked) else g
  }

  function WitchPoisons(g: Game, c: NightChoices): (r: Game)
    ensures r == g.(killTarget := r.killTarget)
    ensures r.killTarget == g.killTarget || !g.killUsed
  {
    if WithRole(g.players, Witch) == [] || g.killUsed || c.poisonName == "" || c.poisonName == "no_kill" then g
    else
      match LivingTarget(g.players, c.poisonName)
      case None => g
      case Some(id) => g.(killTarget := Some(id))
  }

  /** The wolves' victim survives: the guard or the witch protected exactly them. */
  predicate VictimSaved(g: Game) {
    g.nightAttacked.Some? && (g.guardTarget == g.nightAttacked || g.saveTarget == g.nightAttacked)
  }

  function ResolveAttack(g: Game): (r: Game)
    ensures r == g.(players := r.players, aliveCount := r.aliveCount, revealed := r.revealed,
                 nightDeath := r.nightDeath, saveUsed := g.saveUsed || VictimSaved(g))
  {
    if g.nightAttacked.None? then g.(nightDeath := None)
    else if VictimSaved(g) then g.(nightDeath := None, saveUsed := true)
    else Kill(g.(nightDeath := g.nightAttacked), g.nightAttacked.value)
  }

  predicate PoisonWorks(g: Game) {
    g.killTarget.Some? && AliveId(g.players, g.killTarget.value)
  }

  function ResolvePoison(g: Game): (r: Game)
    ensures r == g.(players := r.players, aliveCount := r.aliveCount, revealed := r.revealed,
                 killUsed := g.killUsed || PoisonWorks(g))
  {
    if PoisonWorks(g) then Kill(g, g.killTarget.value).(killUsed := true) else g
  }

  /** Night resolution recounts the wolves and never names a winner. */
  function ResolveNight(g: Game): (r: Game)
    ensures r == g.(players := r.players, aliveCount := r.aliveCount, revealed := r.revealed, nightDeath := r.nightDeath,
                 wolfCount := CountWolves(r.players), saveUsed := g.saveUsed || VictimSaved(g),
                 killUsed := g.killUsed || PoisonWorks(ResolveAttack(g)))
  {
    var resolved := ResolvePoison(ResolveAttack(g));
    resolved.(wolfCount := CountWolves(resolved.players))
  }

  function WolfPhase(g: Game, c: NightChoices): (r: Game)
    ensures r == g.(phase := NightWolves, wolfVotes := r.wolfVotes, nightAttacked := r.nightAttacked)
  {
    DetermineVictim(WolvesVote(g.(phase := NightWolves), c), c)
  }

  /** The night up to its resolution. */
  function BeforeDawn(g: Game, c: NightChoices): (r: Game)
    ensures r == g.(phase := NightWitch, wolfVotes := r.wolfVotes, nightAttacked := WolfPhase(g, c).nightAttacked,
                 seerTarget := r.seerTarget, seerResult := r.seerResult, guardTarget := r.guardTarget,
                 saveTarget := r.saveTarget, killTarget := r.killTarget)
    ensures r.saveTarget == g.saveTarget || (!g.saveUsed && r.saveTarget == r.nightAttacked)
    ensures r.killTarget == g.killTarget || !g.killUsed
  {
    var seen := SeerLooks(WolfPhase(g, c).(phase := NightSeer), c);
    var guarded := GuardProtects(seen.(phase := NightGuard), c);
    WitchPoisons(WitchSaves(guarded.(phase := NightWitch), c), c)
  }

  function Announce(dawn: Game): (r: Game) {
    if dawn.winner != Nobody then dawn.(phase := GameOver) else dawn.(phase := DayAnnounce)
  }

  function RunNight(g: Game, c: NightChoices): (r: Game) {
    Announce(ResolveNight(BeforeDawn(g, c).(phase := NightResolve)))
  }

  // ---- day -----------------------------------------------------------------------------

  function BallotOf(players: seq<Seat>, voters: seq<Seat>, names: seq<string>, votes: Votes): (r: Votes) {
    if voters == [] then votes
    else
      var k := |voters| - 1;
      var before := BallotOf(players, voters[..k], names, votes);
      if |Living(players)| <= 1 then before
      else
        match LivingTarget(players, NameAt(names, k))
        case None => before
        case Some(target) => Put(before, voters[k].id, target)
  }

  /** Every living player votes; if no vote counts, a random one is cast. */
  function DayVotes(g: Game, d: DayChoices): (r: Game)
    ensures r == g.(dayVotes := r.dayVotes)
  {
    var living := Living(g.players);
    var votes := BallotOf(g.players, living, d.voteNames, g.dayVotes);
    if votes == [] && |living| >= 2 then
      var voter := Pick(living, d.voter);
      var others := Select(g.players, (p: Seat) => p.alive && p.id != voter.id);
      if others == [] then g.(dayVotes := votes)
      else g.(dayVotes := Put(votes, voter.id, Pick(others, d.target).id))
    else g.(dayVotes := votes)
  }

  /** The lynching and, when a hunter dies with a target set, his shot. */
  function ResolveLynch(g: Game): (r: Game)
    ensures r == g.(lynched := LynchOf(Targets(g.dayVotes)), players := r.players,
                 aliveCount := r.aliveCount, revealed := r.revealed)
  {
    var lynched := LynchOf(Targets(g.dayVotes));
    var marked := g.(lynched := lynched);
    if lynched.None? || !AliveId(g.players, lynched.value) then marked
    else
      var hanged := Kill(marked, lynched.value);
      var role := g.players[FindById(g.players, lynched.value).value].role;
      if role == Hunter && g.hunterTarget.Some? && AliveId(hanged.players, g.hunterTarget.value)
      then Kill(hanged, g.hunterTarget.value)
      else hanged
  }

  /** The verdict from the running counters. */
  function Judge(g: Game): (r: Game) {
    var wolves := CountWolves(g.players);
    var counted := g.(wolfCount := wolves);
    if wolves <= 0 then counted.(winner := Village, phase := GameOver)
    else if wolves >= g.aliveCount - wolves then counted.(winner := Werewolves, phase := GameOver)
    else counted
  }

  function ResolveDay(g: Game): (r: Game) {
    Judge(ResolveLynch(g))
  }

  /** A lynched hunter shoots a living player; the win check has already been made. */
  function HunterRevenge(g: Game, shotName: string): (r: Game)
    ensures r == g.(hunterTarget := r.hunterTarget, players := r.players,
                 aliveCount := r.aliveCount, revealed := r.revealed)
  {
    if g.lynched.None? || FindById(g.players, g.lynched.value).None?
       || g.players[FindById(g.players, g.lynched.value).value].role != Hunter
       || Select(g.players, (p: Seat) => p.alive && p.id != g.lynched.value) == []
       || shotName == "" || shotName == "none"
    then g
    else
      match LivingTarget(g.players, shotName)
      case None => g
      case Some(id) => Kill(g.(hunterTarget := Some(id)), id)
  }

  function AfterVote(g: Game, d: DayChoices): (r: Game) {
    ResolveDay(DayVotes(g.(phase := DayVote), d).(phase := DayResolve))
  }

  function RunDay(g: Game, d: DayChoices): (r: Game) {
    if g.winner != Nobody then g.(phase := GameOver)
    else HunterRevenge(AfterVote(g, d), d.shotName)
  }

  // ---- the phase order and the loop ------------------------------------------------------

  function ResetNight(g: Game): (r: Game) {
    g.(wolfVotes := [], guardTarget := None, seerTarget := None, seerResult := None,
       saveTarget := None, killTarget := None)
  }

  function ResetOutcome(g: Game): (r: Game) {
    g.(nightDeath := None, nightAttacked := None, dayVotes := [], lynched := None, hunterTarget := None)
  }

  function NewRound(g: Game): (r: Game) {
    ResetOutcome(ResetNight(g.(phase := NightWolves)))
  }

  function AdvancePhase(g: Game): (r: Game) {
    match g.phase
    case NightWolves => g.(phase := NightSeer)
    case NightSeer => g.(phase := NightGuard)
    case NightGuard => g.(phase := NightWitch)
    case NightWitch => g.(phase := NightResolve)
    case NightResolve => g.(phase := DayAnnounce)
    case DayAnnounce => g.(phase := DayDiscussion)
    case DayDiscussion => g.(phase := DayVote)
    case DayVote => g.(phase := DayResolve)
    case DayResolve =>
      var next := g.(round := g.round + 1);
      if next.round > MAX_ROUNDS then next.(phase := GameOver, winner := Draw) else NewRound(next)
    case _ => g
  }

  /** One pass of the game loop: a night, a day and, unless the game is over, the next round.
      The loop adds one to the round and so does the phase change. */
  function Pass(g: Game, c: PassChoices): (r: Game) {
    var dawn := RunNight(g, c.night);
    if dawn.winner != Nobody then dawn
    else
      var dusk := RunDay(dawn, c.day);
      if dusk.phase == DayResolve then AdvancePhase(dusk.(round := dusk.round + 1)) else dusk
  }

  predicate Running(g: Game) {
    g.phase != GameOver && g.round < 15
  }

  /** The game after at most n passes of the loop. */
  function Play(g: Game, choices: seq<PassChoices>): (r: Game) {
    if choices == [] then g
    else
      var before := Play(g, choices[..|choices| - 1]);
      if Running(before) then Pass(before, choices[|choices| - 1]) else before
  }

  // ---- the start --------------------------------------------------------------------------

  /** The six fixed roles, and a villager for every further player. */
  function RoleDeck(n: nat): (r: seq<Role>)
    requires n >= 6
    ensures |r| == n
  {
    [Werewolf, Werewolf, Seer, Guard, Witch, Hunter] + seq(n - 6, _ => Villager)
  }

  /** A new game after the deck was shuffled. */
  function InitGame(names: seq<string>, shuffled: seq<Role>): (r: Game)
    requires |names| == |shuffled|
  {
    var players := seq(|names|, i requires 0 <= i < |names| => Seat(names[i], shuffled[i], i, true));
    Game(NightWolves, 0, players, |names|, CountWolves(players), [], None, None, None, false, false,
         None, None, None, None, [], None, None, map[], Nobody)
  }
}
