/**
 * The bracket logic of the tournament generator: participants, teams and
 * matches as values, the four match formats, team formation, pairing of teams
 * into matches, the winner rule, and the winners of one round re-paired into
 * the next round.
 */
module Tournament {

  datatype Option<T> = None | Some(value: T)

  datatype Participant = Participant(name: string)

  /** A team owns a copy of its members, in roster order. */
  datatype Team = Team(members: seq<Participant>)

  /** Two optional team slots and their scores (an `i32` in the program; only compared here). */
  datatype MatchNode = MatchNode(team1: Option<Team>, team2: Option<Team>, score1: int, score2: int)

  /** Selectable, but only the pairing below is ever run, whichever is chosen. */
  datatype TournamentType = SingleElimination | DoubleElimination | RoundRobin

  datatype MatchType = OneVsOne | TwoVsTwo | ThreeVsThree | FourVsFour

  // ---------------------------------------------------------------------------
  // Match formats

  /** The number of players per side of a match format. */
  function TypeToNumber(t: MatchType): (n: nat)
    ensures 1 <= n <= 4
    ensures n == 1 <==> t == OneVsOne
    ensures n == 4 <==> t == FourVsFour
  {
    match t
    case OneVsOne => 1
    case TwoVsTwo => 2
    case ThreeVsThree => 3
    case FourVsFour => 4
  }

  /** Different formats have different team sizes, so the size names the format. */
  lemma TypeToNumberInjective(a: MatchType, b: MatchType)
    ensures TypeToNumber(a) == TypeToNumber(b) ==> a == b
  {
  }

  // ---------------------------------------------------------------------------
  // Team formation

  function Min(a: int, b: int): int { if a <= b then a else b }

  /** The roster cut into consecutive chunks of `k`, the last one possibly shorter. */
  function Chunks(s: seq<Participant>, k: nat): seq<Team>
    requires k >= 1
    decreases |s|
  {
    if s == [] then []
    else [Team(s[..Min(k, |s|)])] + Chunks(s[Min(k, |s|)..], k)
  }

  /** The members of all teams, team after team. */
  function Roster(teams: seq<Team>): seq<Participant>
    decreases |teams|
  {
    if teams == [] then [] else teams[0].members + Roster(teams[1..])
  }

  /** The first team is the whole roster when it fits, otherwise the first `k` players. */
  lemma ChunksUnfold(s: seq<Participant>, k: nat)
    requires k >= 1 && s != []
    ensures |s| <= k ==> Chunks(s, k) == [Team(s)]
    ensures |s| > k ==> Chunks(s, k) == [Team(s[..k])] + Chunks(s[k..], k)
  {
    if |s| <= k {
      assert s[..|s|] == s && s[|s|..] == [];
    }
  }

  /** Forming teams loses, adds and reorders nobody. */
  lemma {:induction false} RosterOfChunks(s: seq<Participant>, k: nat)
    requires k >= 1
    ensures Roster(Chunks(s, k)) == s
    decreases |s|
  {
    if s != [] {
      ChunksUnfold(s, k);
      if |s| > k {
        RosterOfChunks(s[k..], k);
        assert s == s[..k] + s[k..];
      }
    }
  }

  /** There are ⌈n/k⌉ teams. */
  lemma ChunksCount(s: seq<Participant>, k: nat)
    requires k >= 1
    ensures |Chunks(s, k)| == (|s| + k - 1) / k
  {
    ChunksCountSteps(s, k);
    CeilDivIsDiv(|s|, k);
  }

  /** `n / k` rounded up, one team at a time. */
  function CeilDiv(n: nat, k: nat): nat
    requires k >= 1
    decreases n
  {
    if n == 0 then 0 else if n <= k then 1 else 1 + CeilDiv(n - k, k)
  }

  lemma {:induction false} ChunksCountSteps(s: seq<Participant>, k: nat)
    requires k >= 1
    ensures |Chunks(s, k)| == CeilDiv(|s|, k)
    decreases |s|
  {
    if s != [] {
      ChunksUnfold(s, k);
      if |s| > k {
        ChunksCountSteps(s[k..], k);
      }
    }
  }

  lemma {:induction false} CeilDivIsDiv(n: nat, k: nat)
    requires k >= 1
    ensures CeilDiv(n, k) == (n + k - 1) / k
    decreases n
  {
    if n == 0 {
      DivBetween(k - 1, k, 0);
    } else if n <= k {
      DivBetween(n + k - 1, k, 1);
    } else {
      CeilDivIsDiv(n - k, k);
      DivPlus(n - 1, k);
    }
  }

  lemma DivPlus(a: int, k: int)
    requires k >= 1
    ensures (a + k) / k == a / k + 1
  {
    var q := a / k;
    assert a == q * k + a % k;
    assert (q + 1) * k == q * k + k;
    DivBetween(a + k, k, q + 1);
  }

  /** `q` is `a / k` as soon as `q * k <= a < (q + 1) * k`. */
  lemma DivBetween(a: int, k: int, q: int)
    requires k >= 1 && q * k <= a < q * k + k
    ensures a / k == q
  {
    var d, r := a / k, a % k;
    assert a == d * k + r && 0 <= r < k;
    if d < q {
      MulMono(d + 1, q, k);
    } else if q < d {
      MulMono(q + 1, d, k);
    }
  }

  lemma MulMono(x: int, y: int, k: int)
    requires x <= y && k >= 0
    ensures x * k <= y * k
  {
  }

  /** `n` is a whole number of `k`s, counted out one `k` at a time. */
  predicate Multiple(n: nat, k: nat)
    requires k >= 1
    decreases n
  {
    n == 0 || (n >= k && Multiple(n - k, k))
  }

  lemma {:induction false} MultipleIffMod(n: nat, k: nat)
    requires k >= 1
    ensures Multiple(n, k) <==> n % k == 0
    decreases n
  {
    if n == 0 {
    } else if n < k {
      DivBetween(n, k, 0);
    } else {
      MultipleIffMod(n - k, k);
      ModMinus(n, k);
    }
  }

  lemma ModMinus(a: int, k: int)
    requires k >= 1
    ensures (a - k) % k == a % k
  {
    var q, r := a / k, a % k;
    assert a - k == (q - 1) * k + r;
    DivBetween(a - k, k, q - 1);
  }

  /** Every team but the last is full; the last has 1 to `k` members; an exact multiple gives only full teams. */
  lemma ChunkSizes(s: seq<Participant>, k: nat)
    requires k >= 1
    ensures forall i :: 0 <= i < |Chunks(s, k)| - 1 ==> |Chunks(s, k)[i].members| == k
    ensures Chunks(s, k) != [] ==> 1 <= |Chunks(s, k)[|Chunks(s, k)| - 1].members| <= k
    ensures |s| % k == 0 ==> forall i :: 0 <= i < |Chunks(s, k)| ==> |Chunks(s, k)[i].members| == k
  {
    ChunkSizesSteps(s, k);
    MultipleIffMod(|s|, k);
  }

  lemma {:induction false} ChunkSizesSteps(s: seq<Participant>, k: nat)
    requires k >= 1
    ensures forall i :: 0 <= i < |Chunks(s, k)| - 1 ==> |Chunks(s, k)[i].members| == k
    ensures Chunks(s, k) != [] ==> 1 <= |Chunks(s, k)[|Chunks(s, k)| - 1].members| <= k
    ensures Multiple(|s|, k) ==> forall i :: 0 <= i < |Chunks(s, k)| ==> |Chunks(s, k)[i].members| == k
    decreases |s|
  {
    if s != [] {
      ChunksUnfold(s, k);
      if |s| > k {
        ChunkSizesSteps(s[k..], k);
        assert forall i :: 1 <= i < |Chunks(s, k)| ==> Chunks(s, k)[i] == Chunks(s[k..], k)[i - 1];
      }
    }
  }

  /** When every team is full the roster is a multiple of the team size. */
  lemma FullChunksDivide(s: seq<Participant>, k: nat)
    requires k >= 1
    requires forall i :: 0 <= i < |Chunks(s, k)| ==> |Chunks(s, k)[i].members| == k
    ensures |s| % k == 0
  {
    FullChunksMultiple(s, k);
    MultipleIffMod(|s|, k);
  }

  lemma {:induction false} FullChunksMultiple(s: seq<Participant>, k: nat)
    requires k >= 1
    requires forall i :: 0 <= i < |Chunks(s, k)| ==> |Chunks(s, k)[i].members| == k
    ensures Multiple(|s|, k)
    decreases |s|
  {
    if s != [] {
      ChunksUnfold(s, k);
      if |s| > k {
        assert forall i :: 0 <= i < |Chunks(s[k..], k)| ==> Chunks(s[k..], k)[i] == Chunks(s, k)[i + 1];
        FullChunksMultiple(s[k..], k);
      } else {
        assert |Chunks(s, k)[0].members| == |s|;
        assert Multiple(|s| - k, k);
      }
    }
  }

  /** `create_teams`: copies the roster into teams of the format's size, chunk by chunk. */
  method CreateTeams(participants: seq<Participant>, matchType: MatchType) returns (teams: seq<Team>)
    ensures teams == Chunks(participants, TypeToNumber(matchType))
  {
    var teamSize := TypeToNumber(matchType);
    teams := [];
    var rest := participants;
    while rest != []
      invariant teams + Chunks(rest, teamSize) == Chunks(participants, teamSize)
      decreases |rest|
    {
      var chunk := rest[..Min(teamSize, |rest|)];
      var members := [];
      for i := 0 to |chunk|
        invariant members == chunk[..i]
      {
        members := members + [chunk[i]];
      }
      assert chunk[..|chunk|] == chunk;
      teams := teams + [Team(members)];
      rest := rest[|chunk|..];
    }
  }

  // ---------------------------------------------------------------------------
  // Match pairing

  /** Both slots filled: what makes the `unwrap` of the winner rule safe. */
  predicate Complete(m: MatchNode)
  {
    m.team1.Some? && m.team2.Some?
  }

  predicate AllComplete(ms: seq<MatchNode>)
  {
    forall i :: 0 <= i < |ms| ==> Complete(ms[i])
  }

  /** Teams 0 and 1, 2 and 3, ... as fresh matches with scores 0; an odd last team is left out. */
  function Pairs(teams: seq<Team>): seq<MatchNode>
    decreases |teams|
  {
    if |teams| < 2 then []
    else [MatchNode(Some(teams[0]), Some(teams[1]), 0, 0)] + Pairs(teams[2..])
  }

  /** Pairing gives ⌊t/2⌋ matches; match `i` is team `2i` against team `2i+1` at 0–0. */
  lemma {:induction false} PairsAt(teams: seq<Team>)
    ensures |Pairs(teams)| == |teams| / 2
    ensures forall i :: 0 <= i < |Pairs(teams)| ==>
      Pairs(teams)[i] == MatchNode(Some(teams[2 * i]), Some(teams[2 * i + 1]), 0, 0)
    decreases |teams|
  {
    if |teams| >= 2 {
      PairsAt(teams[2..]);
      forall i | 1 <= i < |Pairs(teams)|
        ensures Pairs(teams)[i] == MatchNode(Some(teams[2 * i]), Some(teams[2 * i + 1]), 0, 0)
      {
        assert Pairs(teams)[i] == Pairs(teams[2..])[i - 1];
        assert teams[2..][2 * (i - 1)] == teams[2 * i];
      }
    }
  }

  /** Every paired match has both teams; with an odd team count the last team plays in no match. */
  lemma PairsComplete(teams: seq<Team>)
    ensures AllComplete(Pairs(teams))
    ensures |teams| % 2 == 1 ==> forall i :: 0 <= i < |Pairs(teams)| ==> 2 * i + 1 < |teams| - 1
  {
    PairsAt(teams);
  }

  /** The pairing loop shared by `generate_matches` and `next_round`: walk the teams two at a time. */
  method PairTeams(teams: seq<Team>) returns (matches: seq<MatchNode>)
    ensures matches == Pairs(teams)
  {
    matches := [];
    var start := 0;
    while start < |teams|
      invariant 0 <= start <= |teams|
      invariant matches + Pairs(teams[start..]) == Pairs(teams)
      decreases |teams| - start
    {
      var end := Min(start + 2, |teams|);
      var chunk := teams[start..end];
      if |chunk| == 2 {
        assert teams[start..][2..] == teams[end..];
        matches := matches + [MatchNode(Some(chunk[0]), Some(chunk[1]), 0, 0)];
      }
      start := end;
    }
    assert teams[start..] == [];
  }

  // ---------------------------------------------------------------------------
  // Winner rule and round advancement

  /** The slot `IsWinner` unwraps is filled. */
  predicate Resolvable(m: MatchNode)
  {
    if m.score1 > m.score2 then m.team1.Some? else m.team2.Some?
  }

  predicate AllResolvable(ms: seq<MatchNode>)
  {
    forall i :: 0 <= i < |ms| ==> Resolvable(ms[i])
  }

  lemma CompleteResolvable(ms: seq<MatchNode>)
    requires AllComplete(ms)
    ensures AllResolvable(ms)
  {
  }

  /** `is_winner`: team1 on a strictly higher score, otherwise team2, ties included. */
  function IsWinner(m: MatchNode): (w: Team)
    requires Resolvable(m)
    ensures Some(w) == m.team1 || Some(w) == m.team2
    ensures m.score1 > m.score2 ==> Some(w) == m.team1
    ensures m.score1 <= m.score2 ==> Some(w) == m.team2
  {
    if m.score1 > m.score2 then m.team1.value else m.team2.value
  }

  /** The champion `next_round` records for a one-match round: nobody on a tie. */
  function FinalWinner(m: MatchNode): (r: Option<Team>)
    ensures r == None || r == m.team1 || r == m.team2
    ensures Complete(m) ==> (r == None <==> m.score1 == m.score2)
  {
    if m.score1 > m.score2 then m.team1
    else if m.score1 < m.score2 then m.team2
    else None
  }

  /** The final's champion agrees with `IsWinner` exactly when the final is not tied; a tied final
      records no champion while the same match still advances team2. */
  lemma FinalWinnerVersusIsWinner(m: MatchNode)
    requires Complete(m)
    ensures FinalWinner(m) == Some(IsWinner(m)) <==> m.score1 != m.score2
    ensures m.score1 == m.score2 ==> FinalWinner(m) == None && Some(IsWinner(m)) == m.team2
  {
  }

  /** The champion does not depend on which side a team was listed on; `IsWinner` does, on a tie. */
  lemma FinalWinnerSymmetric(m: MatchNode)
    ensures FinalWinner(MatchNode(m.team2, m.team1, m.score2, m.score1)) == FinalWinner(m)
  {
  }

  /** The winner of each match, in match order. */
  function Winners(ms: seq<MatchNode>): seq<Team>
    requires AllResolvable(ms)
  {
    seq(|ms|, i requires 0 <= i < |ms| => IsWinner(ms[i]))
  }

  /** The winners loop of `next_round`. */
  method CollectWinners(ms: seq<MatchNode>) returns (teams: seq<Team>)
    requires AllResolvable(ms)
    ensures |teams| == |ms|
    ensures forall i :: 0 <= i < |ms| ==> teams[i] == IsWinner(ms[i])
  {
    teams := [];
    for i := 0 to |ms|
      invariant |teams| == i
      invariant forall j :: 0 <= j < i ==> teams[j] == IsWinner(ms[j])
    {
      teams := teams + [IsWinner(ms[i])];
    }
  }

  /** The matches of the next round: the winners, re-paired in order. */
  function Round(ms: seq<MatchNode>): seq<MatchNode>
    requires AllResolvable(ms)
  {
    Pairs(Winners(ms))
  }

  /** A round of m matches becomes ⌊m/2⌋ complete, fresh matches between consecutive winners;
      a one-match round becomes no match at all. */
  lemma RoundHalves(ms: seq<MatchNode>)
    requires AllResolvable(ms)
    ensures |Round(ms)| == |ms| / 2
    ensures AllComplete(Round(ms))
    ensures forall i :: 0 <= i < |Round(ms)| ==>
      Round(ms)[i] == MatchNode(Some(IsWinner(ms[2 * i])), Some(IsWinner(ms[2 * i + 1])), 0, 0)
    ensures |ms| == 1 ==> Round(ms) == []
  {
    PairsAt(Winners(ms));
    PairsComplete(Winners(ms));
  }

  /** `next` is the round after `prev` once the players have entered their scores. */
  predicate Advanced(prev: seq<MatchNode>, next: seq<MatchNode>)
  {
    AllResolvable(prev) && SameTeams(next, Round(prev))
  }

  /** Same teams in the same slots; the scores may differ. */
  predicate SameTeams(a: seq<MatchNode>, b: seq<MatchNode>)
  {
    |a| == |b| && forall i :: 0 <= i < |a| ==> a[i].team1 == b[i].team1 && a[i].team2 == b[i].team2
  }

  function Pow2(k: nat): nat
  {
    if k == 0 then 1 else 2 * Pow2(k - 1)
  }

  /** A bracket of 2^k matches is down to one match after k rounds, whatever the scores,
      and the round after that one is empty. */
  lemma {:induction false} Termination(rounds: seq<seq<MatchNode>>, k: nat)
    requires |rounds| == k + 1
    requires |rounds[0]| == Pow2(k)
    requires forall j :: 0 <= j < k ==> Advanced(rounds[j], rounds[j + 1])
    ensures forall j :: 0 <= j <= k ==> |rounds[j]| == Pow2(k - j)
    ensures |rounds[k]| == 1
    ensures AllResolvable(rounds[k]) ==> Round(rounds[k]) == []
    decreases k
  {
    if k == 0 {
      assert |rounds[0]| == 1;
      if AllResolvable(rounds[0]) {
        RoundHalves(rounds[0]);
      }
    } else {
      assert Advanced(rounds[0], rounds[1]);
      RoundHalves(rounds[0]);
      assert |rounds[1]| == Pow2(k - 1);
      var rest := rounds[1..];
      forall j | 0 <= j < k - 1
        ensures Advanced(rest[j], rest[j + 1])
      {
        assert Advanced(rounds[j + 1], rounds[j + 2]);
      }
      Termination(rest, k - 1);
      forall j | 1 <= j <= k
        ensures |rounds[j]| == Pow2(k - j)
      {
        assert rounds[j] == rest[j - 1];
      }
    }
  }

  /** The example bracket of four players in singles: A–B and C–D, then A–D, won by D. */
  lemma FourPlayerScenario(a: Participant, b: Participant, c: Participant, d: Participant)
    ensures Pairs(Chunks([a, b, c, d], TypeToNumber(OneVsOne))) ==
      [MatchNode(Some(Team([a])), Some(Team([b])), 0, 0), MatchNode(Some(Team([c])), Some(Team([d])), 0, 0)]
    ensures Round([MatchNode(Some(Team([a])), Some(Team([b])), 2, 1), MatchNode(Some(Team([c])), Some(Team([d])), 0, 3)]) ==
      [MatchNode(Some(Team([a])), Some(Team([d])), 0, 0)]
    ensures FinalWinner(MatchNode(Some(Team([a])), Some(Team([d])), 1, 4)) == Some(Team([d]))
  {
    var s := [a, b, c, d];
    assert s[..1] == [a] && s[1..] == [b, c, d];
    assert [b, c, d][..1] == [b] && [b, c, d][1..] == [c, d];
    assert [c, d][..1] == [c] && [c, d][1..] == [d];
    ChunksUnfold([d], 1);
    ChunksUnfold([c, d], 1);
    ChunksUnfold([b, c, d], 1);
    ChunksUnfold(s, 1);
    assert Chunks(s, 1) == [Team([a]), Team([b]), Team([c]), Team([d])];
    var teams := [Team([a]), Team([b]), Team([c]), Team([d])];
    assert teams[2..] == [Team([c]), Team([d])];
    assert teams[2..][2..] == [];
    assert Pairs(teams[2..]) == [MatchNode(Some(Team([c])), Some(Team([d])), 0, 0)];
    var ms := [MatchNode(Some(Team([a])), Some(Team([b])), 2, 1), MatchNode(Some(Team([c])), Some(Team([d])), 0, 3)];
    assert Winners(ms) == [Team([a]), Team([d])];
    assert Pairs([Team([a]), Team([d])]) == [MatchNode(Some(Team([a])), Some(Team([d])), 0, 0)] + Pairs([]);
  }

  // ---------------------------------------------------------------------------
  // Display

  /** ", name" for each participant, in order. */
  function Middle(ms: seq<Participant>): string
    decreases |ms|
  {
    if ms == [] then "" else Middle(ms[..|ms| - 1]) + ", " + ms[|ms| - 1].name
  }

  /** "A", "A & B", "A, B & C", ...; the empty team gives "". */
  function Joined(ms: seq<Participant>): string
  {
    if |ms| == 0 then ""
    else if |ms| == 1 then ms[0].name
    else ms[0].name + Middle(ms[1..|ms| - 1]) + " & " + ms[|ms| - 1].name
  }

  /** `team_to_string`: appends each member's name with the separator its position calls for. */
  method TeamToString(team: Team) returns (s: string)
    ensures s == Joined(team.members)
  {
    var members := team.members;
    s := "";
    var index := 0;
    while index < |members|
      invariant 0 <= index <= |members|
      invariant index == 0 ==> s == ""
      invariant 0 < index < |members| ==> s == members[0].name + Middle(members[1..index])
      invariant index == |members| ==> s == Joined(members)
    {
      if index == 0 {
        s := s + members[index].name;
        assert members[1..1] == [];
      } else if index > 0 && index < |members| - 1 {
        assert members[1..index + 1][..index - 1] == members[1..index];
        s := s + ", " + members[index].name;
      } else if index == |members| - 1 {
        s := s + " & " + members[index].name;
      }
      index := index + 1;
    }
  }
}
